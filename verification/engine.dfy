/** `runMatchingEngine`: one summary per opted-in user, with that user's best
    matches. The `users` and `jobs` collections are parameters here. */
module Engine {
  import opened Records
  import opened Scoring
  import opened Ranking

  /** Every job can be scored against `user`. */
  predicate ReadableFor(jobs: seq<Job>, user: User) {
    forall j :: j in jobs ==> SkillsReadable(j, user)
  }

  /** Every job can be scored against every opted-in user. */
  predicate Scorable(jobs: seq<Job>, users: seq<User>) {
    forall i :: 0 <= i < |users| && users[i].autoApply ==> ReadableFor(jobs, users[i])
  }

  /** `jobs.map(job => matchJobToUser(job, user))`. */
  function MatchAll(jobs: seq<Job>, user: User): (results: seq<MatchResult>)
    requires ReadableFor(jobs, user)
    ensures |results| == |jobs|
    ensures forall i :: 0 <= i < |jobs| ==> results[i] == MatchJobToUser(jobs[i], user)
  {
    seq(|jobs|, i requires 0 <= i < |jobs| => MatchJobToUser(jobs[i], user))
  }

  /** The summary pushed for one opted-in user. */
  function Summarize(jobs: seq<Job>, user: User): (s: UserSummary)
    requires ReadableFor(jobs, user)
    ensures s.userId == user.id && s.userName == user.name
    ensures |s.topMatches| <= MaxMatches
    ensures var q := Qualifying(MatchAll(jobs, user));
            |s.topMatches| == if |q| < MaxMatches then |q| else MaxMatches
    ensures s.topMatches <= SortByScore(Qualifying(MatchAll(jobs, user)))
    ensures forall m :: m in s.topMatches ==> m in MatchAll(jobs, user) && m.score >= MinScore
    ensures SortedByScore(s.topMatches)
    ensures forall k :: WithScore(s.topMatches, k) <= WithScore(MatchAll(jobs, user), k)
  {
    var results := MatchAll(jobs, user);
    TopMatchesSortedAndStable(results);
    UserSummary(user.id, user.name, TopMatches(results))
  }

  /** Indices of the users with `autoApply` set, in increasing order. */
  function OptedIn(users: seq<User>): (idx: seq<nat>)
    ensures forall k :: 0 <= k < |idx| ==> idx[k] < |users| && users[idx[k]].autoApply
    ensures forall k, l :: 0 <= k < l < |idx| ==> idx[k] < idx[l]
    ensures forall i :: 0 <= i < |users| && users[i].autoApply ==> i in idx
  {
    if users == [] then []
    else
      var n := |users| - 1;
      var front := OptedIn(users[..n]);
      assert forall k :: 0 <= k < |front| ==> users[front[k]] == users[..n][front[k]];
      front + (if users[n].autoApply then [n] else [])
  }

  /** Looking at one more user appends that user's index when they opted in. */
  lemma OptedInStep(users: seq<User>, i: nat)
    requires i < |users|
    ensures OptedIn(users[..i + 1]) == OptedIn(users[..i]) + (if users[i].autoApply then [i] else [])
  {
    assert users[..i + 1][..i] == users[..i];
  }

  lemma ScorablePrefix(jobs: seq<Job>, users: seq<User>, n: nat)
    requires Scorable(jobs, users) && n <= |users|
    ensures Scorable(jobs, users[..n])
  {
    forall i | 0 <= i < n && users[..n][i].autoApply
      ensures ReadableFor(jobs, users[..n][i])
    {
      assert users[..n][i] == users[i];
    }
  }

  /** The summaries of the opted-in users of `users`, in order, defined
      user by user. */
  function Summaries(jobs: seq<Job>, users: seq<User>): (s: seq<UserSummary>)
    requires Scorable(jobs, users)
    ensures |s| == |OptedIn(users)|
    ensures forall k :: 0 <= k < |s| ==> s[k] == Summarize(jobs, users[OptedIn(users)[k]])
  {
    if users == [] then []
    else
      var n := |users| - 1;
      ScorablePrefix(jobs, users, n);
      var front := Summaries(jobs, users[..n]);
      SummariesStep(jobs, users, front);
      front + (if users[n].autoApply then [Summarize(jobs, users[n])] else [])
  }

  /** One more user extends the summaries of the users before them. */
  lemma SummariesStep(jobs: seq<Job>, users: seq<User>, front: seq<UserSummary>)
    requires Scorable(jobs, users) && users != []
    requires |front| == |OptedIn(users[..|users| - 1])|
    requires forall k :: 0 <= k < |front| ==>
               front[k] == Summarize(jobs, users[..|users| - 1][OptedIn(users[..|users| - 1])[k]])
    ensures var n := |users| - 1;
            var s := front + (if users[n].autoApply then [Summarize(jobs, users[n])] else []);
            && |s| == |OptedIn(users)|
            && forall k :: 0 <= k < |s| ==> s[k] == Summarize(jobs, users[OptedIn(users)[k]])
  {
    var n := |users| - 1;
    assert users[..n + 1] == users;
    OptedInStep(users, n);
    var idx := OptedIn(users[..n]);
    forall k | 0 <= k < |idx|
      ensures users[..n][idx[k]] == users[idx[k]]
    {
    }
  }

  /** `runMatchingEngine()`: for each user in order, skip those without
      `autoApply`; for the others push their id, name and top matches. */
  method RunMatchingEngine(jobs: seq<Job>, users: seq<User>) returns (results: seq<UserSummary>)
    requires Scorable(jobs, users)
    ensures results == Summaries(jobs, users)
    ensures |results| == |OptedIn(users)|
    ensures forall k :: 0 <= k < |results| ==> results[k] == Summarize(jobs, users[OptedIn(users)[k]])
  {
    results := [];
    var i := 0;
    while i < |users|
      invariant 0 <= i <= |users|
      invariant Scorable(jobs, users[..i]) && results == Summaries(jobs, users[..i])
    {
      var user := users[i];
      assert users[..i + 1][..i] == users[..i];
      ScorablePrefix(jobs, users, i + 1);
      if user.autoApply {
        results := results + [Summarize(jobs, user)];
      }
      i := i + 1;
    }
    assert users[..i] == users;
  }

  /** When nobody opted in, nothing is produced. */
  lemma NobodyOptedIn(users: seq<User>)
    requires forall u :: u in users ==> !u.autoApply
    ensures OptedIn(users) == []
  {
  }
}
