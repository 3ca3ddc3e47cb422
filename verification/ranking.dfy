/** The per-user ranking step of `runMatchingEngine`:
    `.filter(j => j.score >= 40).sort((a, b) => b.score - a.score).slice(0, 5)`. */
module Ranking {
  import opened Records

  /** Matches scoring below this are dropped. */
  const MinScore: int := 40

  /** At most this many matches are kept per user. */
  const MaxMatches: nat := 5

  predicate SortedByScore(s: seq<MatchResult>) {
    forall i, j :: 0 <= i < j < |s| ==> s[i].score >= s[j].score
  }

  /** The results of `s` whose score is exactly `k`, in their order in `s`.
      A sort is stable when it leaves every such subsequence unchanged. */
  function WithScore(s: seq<MatchResult>, k: int): seq<MatchResult> {
    if s == [] then []
    else (if s[0].score == k then [s[0]] else []) + WithScore(s[1..], k)
  }

  lemma {:induction false} WithScoreOfPrefix(a: seq<MatchResult>, b: seq<MatchResult>, k: int)
    requires a <= b
    ensures WithScore(a, k) <= WithScore(b, k)
  {
    if a != [] {
      assert a[1..] <= b[1..];
      WithScoreOfPrefix(a[1..], b[1..], k);
    }
  }

  /** Inserts `x` in front of the first element scoring no more than it, so
      that `x` precedes the elements of equal score that followed it. */
  function Insert(x: MatchResult, s: seq<MatchResult>): (r: seq<MatchResult>)
    ensures multiset(r) == multiset(s) + multiset{x}
  {
    if s == [] || s[0].score <= x.score then [x] + s
    else
      assert s == [s[0]] + s[1..];
      [s[0]] + Insert(x, s[1..])
  }

  lemma PrependSorted(h: MatchResult, t: seq<MatchResult>)
    requires SortedByScore(t)
    requires forall y :: y in t ==> y.score <= h.score
    ensures SortedByScore([h] + t)
  {
    var r := [h] + t;
    forall i, j | 0 <= i < j < |r| ensures r[i].score >= r[j].score {
      if i == 0 {
        assert r[j] in t;
      } else {
        assert r[i] == t[i - 1] && r[j] == t[j - 1];
      }
    }
  }

  lemma {:induction false} InsertSorted(x: MatchResult, s: seq<MatchResult>)
    requires SortedByScore(s)
    ensures SortedByScore(Insert(x, s))
  {
    if s == [] || s[0].score <= x.score {
      assert forall y :: y in s ==> y.score <= x.score by {
        forall y | y in s ensures y.score <= x.score {
          var j :| 0 <= j < |s| && s[j] == y;
          assert s[0].score >= s[j].score;
        }
      }
      PrependSorted(x, s);
    } else {
      var rest := Insert(x, s[1..]);
      InsertSorted(x, s[1..]);
      assert forall y :: y in rest ==> y.score <= s[0].score by {
        forall y | y in rest ensures y.score <= s[0].score {
          assert y in multiset(rest);
          if y != x {
            assert y in multiset(s[1..]);
            var j :| 0 <= j < |s[1..]| && s[1..][j] == y;
            assert s[j + 1] == y;
          }
        }
      }
      PrependSorted(s[0], rest);
    }
  }

  lemma {:induction false} InsertWithScore(x: MatchResult, s: seq<MatchResult>, k: int)
    ensures WithScore(Insert(x, s), k) == (if x.score == k then [x] else []) + WithScore(s, k)
  {
    if s == [] || s[0].score <= x.score {
      assert ([x] + s)[1..] == s;
    } else {
      var rest := Insert(x, s[1..]);
      assert ([s[0]] + rest)[1..] == rest;
      InsertWithScore(x, s[1..], k);
      if x.score == k {
        assert s[0].score != k;
      }
    }
  }

  /** `.sort((a, b) => b.score - a.score)`: `Array.prototype.sort` is stable,
      so results of equal score keep their relative order. */
  function SortByScore(s: seq<MatchResult>): (r: seq<MatchResult>)
    ensures SortedByScore(r)
    ensures multiset(r) == multiset(s)
    ensures forall k :: WithScore(r, k) == WithScore(s, k)
  {
    if s == [] then []
    else
      var rest := SortByScore(s[1..]);
      assert s == [s[0]] + s[1..];
      InsertSorted(s[0], rest);
      assert forall k :: WithScore(Insert(s[0], rest), k) == WithScore(s, k) by {
        forall k ensures WithScore(Insert(s[0], rest), k) == WithScore(s, k) {
          InsertWithScore(s[0], rest, k);
        }
      }
      Insert(s[0], rest)
  }

  /** `.filter(j => j.score >= 40)`. */
  function Qualifying(s: seq<MatchResult>): (r: seq<MatchResult>)
    ensures |r| <= |s|
    ensures forall x :: x in r <==> x in s && x.score >= MinScore
    ensures forall k :: WithScore(r, k) == (if k >= MinScore then WithScore(s, k) else [])
  {
    if s == [] then []
    else
      var rest := Qualifying(s[1..]);
      var r := (if s[0].score >= MinScore then [s[0]] else []) + rest;
      assert forall k :: WithScore(r, k) == (if k >= MinScore then WithScore(s, k) else []) by {
        forall k ensures WithScore(r, k) == (if k >= MinScore then WithScore(s, k) else []) {
          if s[0].score >= MinScore {
            assert r[1..] == rest;
          } else {
            assert r == rest;
            assert WithScore(s, k) == (if s[0].score == k then [s[0]] else []) + WithScore(s[1..], k);
            if k >= MinScore {
              assert [] + WithScore(s[1..], k) == WithScore(s[1..], k);
            }
          }
        }
      }
      r
  }

  /** The filter works piece by piece; with `QualifyingOne` this says it
      keeps exactly the results scoring 40 or more, in their original order. */
  lemma {:induction false} QualifyingAppend(a: seq<MatchResult>, b: seq<MatchResult>)
    ensures Qualifying(a + b) == Qualifying(a) + Qualifying(b)
    decreases |a|
  {
    if a == [] {
      assert a + b == b;
    } else {
      assert (a + b)[0] == a[0];
      assert (a + b)[1..] == a[1..] + b;
      QualifyingAppend(a[1..], b);
    }
  }

  /** One result is kept exactly when it scores 40 or more. */
  lemma QualifyingOne(x: MatchResult)
    ensures Qualifying([x]) == if x.score >= MinScore then [x] else []
  {
    assert [x][1..] == [];
  }

  /** The matches a user keeps: the qualifying results, best first, at most
      five of them. */
  function TopMatches(results: seq<MatchResult>): (top: seq<MatchResult>)
    ensures |top| == if |Qualifying(results)| < MaxMatches then |Qualifying(results)| else MaxMatches
    ensures top <= SortByScore(Qualifying(results))
    ensures forall x :: x in top ==> x in results && x.score >= MinScore
  {
    var sorted := SortByScore(Qualifying(results));
    var n := if |sorted| < MaxMatches then |sorted| else MaxMatches;
    assert forall x :: x in sorted[..n] ==> x in multiset(sorted);
    sorted[..n]
  }

  /** The kept matches are sorted best first, and among equal scores they
      are the earliest results in their original order. */
  lemma {:induction false} TopMatchesSortedAndStable(results: seq<MatchResult>)
    ensures SortedByScore(TopMatches(results))
    ensures forall k :: WithScore(TopMatches(results), k) <= WithScore(results, k)
  {
    var top := TopMatches(results);
    var sorted := SortByScore(Qualifying(results));
    forall k ensures WithScore(top, k) <= WithScore(results, k) {
      WithScoreOfPrefix(top, sorted, k);
    }
  }

  /** In a sorted sequence nothing after the cut outscores anything before it. */
  lemma SortedCut(sorted: seq<MatchResult>, n: nat)
    requires SortedByScore(sorted) && n <= |sorted|
    ensures forall x, y :: x in sorted[..n] && y in sorted[n..] ==> y.score <= x.score
  {
    forall x: MatchResult, y: MatchResult | x in sorted[..n] && y in sorted[n..] ensures y.score <= x.score {
      var i :| 0 <= i < n && sorted[..n][i] == x;
      var j :| 0 <= j < |sorted| - n && sorted[n..][j] == y;
      assert sorted[i] == x && sorted[n + j] == y;
    }
  }

  /** No qualifying result left out outscores a kept one: the kept matches
      are a best five. */
  lemma {:induction false} TopMatchesAreBest(results: seq<MatchResult>)
    ensures multiset(TopMatches(results)) <= multiset(Qualifying(results))
    ensures forall x, y :: x in TopMatches(results) && y in multiset(Qualifying(results)) - multiset(TopMatches(results))
              ==> y.score <= x.score
  {
    var top := TopMatches(results);
    var sorted := SortByScore(Qualifying(results));
    var rest := sorted[|top|..];
    assert multiset(Qualifying(results)) - multiset(top) == multiset(rest) by {
      assert sorted == top + rest;
      assert multiset(sorted) == multiset(top) + multiset(rest);
    }
    SortedCut(sorted, |top|);
  }
}
