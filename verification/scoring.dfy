/** `matchJobToUser`: the five-factor weighted score with its reasons. */
module Scoring {
  import opened Wrappers
  import opened Text
  import opened Location
  import opened Salary
  import opened Skills
  import opened Records

  /** `job.skills || job.requiredSkills`: an array is truthy even when empty,
      so `skills` wins whenever it is present. */
  function RequiredSkills(job: Job): (r: Option<seq<string>>)
    ensures job.skills.Some? ==> r == job.skills
    ensures job.skills.None? ==> r == job.requiredSkills
  {
    if job.skills.Some? then job.skills else job.requiredSkills
  }

  /** The source reads `user.skills` only when the job requires some skill;
      then it must be present. */
  predicate SkillsReadable(job: Job, user: User) {
    var required := RequiredSkills(job);
    required.Some? && required.value != [] ==> user.skills.Some?
  }

  function SkillFraction(job: Job, user: User): (f: Ratio)
    requires SkillsReadable(job, user)
    ensures f.den >= 1 && f.num <= f.den
    ensures job.skills.Some? ==> f == SkillMatch(user.skills, job.skills)
    ensures job.skills.None? ==> f == SkillMatch(user.skills, job.requiredSkills)
  {
    SkillMatch(user.skills, RequiredSkills(job))
  }

  /** `Math.round(40 * num / den)` computed exactly: the integer nearest to
      `40 * num / den`, halves rounded up. */
  function SkillPoints(f: Ratio): (p: nat)
    requires f.den >= 1
    ensures 2 * f.den * p <= 80 * f.num + f.den < 2 * f.den * (p + 1)
    ensures f.num <= f.den ==> p <= 40
    ensures f.num == f.den ==> p == 40
  {
    RoundedQuotient(f.num, f.den);
    (80 * f.num + f.den) / (2 * f.den)
  }

  /** A 2/3 share is worth `Math.round(26.67)` = 27 points and earns the
      strong-skill reason. */
  lemma TwoThirdsShare()
    ensures SkillPoints(Ratio(2, 3)) == 27
    ensures StrongSkills(Ratio(2, 3))
  {
    var p := SkillPoints(Ratio(2, 3));
    assert 6 * p <= 163 < 6 * (p + 1);
  }

  /** A present `skills` list wins over `requiredSkills` even when it is
      empty, and then the share is full. */
  lemma EmptySkillListWins(job: Job, user: User)
    requires job.skills == Some([])
    ensures SkillsReadable(job, user)
    ensures SkillFraction(job, user) == Ratio(1, 1)
  {
  }

  /** Facts about the rounded quotient used by `SkillPoints`. */
  lemma RoundedQuotient(num: nat, den: nat)
    requires den >= 1
    ensures var p := (80 * num + den) / (2 * den);
            && 2 * den * p <= 80 * num + den < 2 * den * (p + 1)
            && (num <= den ==> p <= 40)
            && (num == den ==> p == 40)
  {
    var n, d := 80 * num + den, 2 * den;
    var p := n / d;
    assert d * p <= n < d * (p + 1) by {
      assert n == d * p + n % d;
    }
    if num <= den {
      assert n < d * 41;
      MulStrictMono(d, p, 41);
    }
    if num == den {
      assert d * 40 <= n < d * 41;
      DivUnique(n, d, p, 40);
    }
  }

  lemma MulStrictMono(d: int, p: int, q: int)
    requires d > 0 && d * p < d * q
    ensures p < q
  {
  }

  /** The quotient is the one integer whose multiples bracket `n`. */
  lemma DivUnique(n: int, d: int, p: int, q: int)
    requires d > 0
    requires d * p <= n < d * (p + 1)
    requires d * q <= n < d * (q + 1)
    ensures p == q
  {
    MulStrictMono(d, p, q + 1);
    MulStrictMono(d, q, p + 1);
  }

  /** `skillScore > 25` with `skillScore = 40 * num / den`. */
  function StrongSkills(f: Ratio): (b: bool)
    ensures b <==> 40 * f.num > 25 * f.den
  {
    8 * f.num > 5 * f.den
  }

  /** Only the job's minimum is checked against the user's window; the job's
      maximum plays no part. */
  function SalaryFits(job: SalaryRange, wanted: SalaryRange): (b: bool)
    ensures b ==> wanted.min <= wanted.max
    ensures wanted.min == wanted.max ==> (b <==> job.min == wanted.min)
  {
    wanted.min <= job.min <= wanted.max
  }

  /** Two jobs with the same minimum fit the same windows, whatever their
      maxima. */
  lemma SalaryFitsIgnoresJobMax(a: SalaryRange, b: SalaryRange, wanted: SalaryRange)
    requires a.min == b.min
    ensures SalaryFits(a, wanted) == SalaryFits(b, wanted)
  {
  }

  /** The location factor: either normalized location contains the other. */
  function LocationFactor(job: Job, user: User): (b: bool)
    ensures Normalize(job.location) == "" || Normalize(user.preferences.location) == "" ==> b
    ensures Normalize(job.location) == Normalize(user.preferences.location) ==> b
  {
    LocationMatch(job.location, user.preferences.location)
  }

  /** The work-mode factor: the normalized job types agree. */
  function WorkModeFactor(job: Job, user: User): (b: bool)
    ensures job.jobType == user.preferences.jobType ==> b
    ensures job.jobType.None? ==> (b <==> Normalize(user.preferences.jobType) == "")
  {
    Normalize(job.jobType) == Normalize(user.preferences.jobType)
  }

  /** The salary factor: the job's minimum lies in the user's window. */
  function SalaryFactor(job: Job, user: User): (b: bool)
    ensures b ==> ExtractSalary(user.preferences.salaryRange).min <= ExtractSalary(job.salaryRange).min
    ensures user.preferences.salaryRange.None? ==> (b <==> ExtractSalary(job.salaryRange).min == 0)
  {
    SalaryFits(ExtractSalary(job.salaryRange), ExtractSalary(user.preferences.salaryRange))
  }

  /** The experience factor: the normalized experience levels agree. */
  function ExperienceFactor(job: Job, user: User): (b: bool)
    ensures job.experienceLevel == user.experienceLevel ==> b
    ensures job.experienceLevel.None? ==> (b <==> Normalize(user.experienceLevel) == "")
  {
    Normalize(job.experienceLevel) == Normalize(user.experienceLevel)
  }

  /** Whether each factor fires for this job and user: the factor table. */
  predicate Fires(reason: Reason, job: Job, user: User)
    requires SkillsReadable(job, user)
  {
    match reason
    case StrongSkillAlignment => StrongSkills(SkillFraction(job, user))
    case LocationMatched => LocationFactor(job, user)
    case PreferredWorkMode => WorkModeFactor(job, user)
    case SalaryWithinRange => SalaryFactor(job, user)
    case ExperienceLevelMatch => ExperienceFactor(job, user)
  }

  /** The reasons appear by strictly increasing factor position, hence
      without duplicates. */
  predicate InFactorOrder(reasons: seq<Reason>) {
    forall i, j :: 0 <= i < j < |reasons| ==> reasons[i].Position() < reasons[j].Position()
  }

  /** Total bonus points of the listed reasons. */
  function BonusOf(reasons: seq<Reason>): nat {
    if reasons == [] then 0 else reasons[0].Bonus() + BonusOf(reasons[1..])
  }

  lemma {:induction false} BonusOfAppend(a: seq<Reason>, b: seq<Reason>)
    ensures BonusOf(a + b) == BonusOf(a) + BonusOf(b)
  {
    if a == [] {
      assert a + b == b;
    } else {
      assert (a + b)[1..] == a[1..] + b;
      BonusOfAppend(a[1..], b);
    }
  }

  /** The reason pushed for one factor: none unless it fires. */
  function Emit(fires: bool, reason: Reason): seq<Reason> {
    if fires then [reason] else []
  }

  /** The points added for one factor: none unless it fires. */
  function Points(fires: bool, reason: Reason): (p: nat)
    ensures p == BonusOf(Emit(fires, reason))
  {
    if fires then
      assert [reason][1..] == [];
      reason.Bonus()
    else 0
  }

  /** Pushing a reason of a later factor keeps the list in factor order,
      adds that reason exactly when its factor fires, and adds nothing else. */
  lemma EmitInOrder(rs: seq<Reason>, fires: bool, reason: Reason)
    requires InFactorOrder(rs)
    requires forall y :: y in rs ==> y.Position() < reason.Position()
    ensures InFactorOrder(rs + Emit(fires, reason))
    ensures forall y :: y in rs + Emit(fires, reason) ==> y.Position() <= reason.Position()
    ensures reason in rs + Emit(fires, reason) <==> fires
    ensures forall x :: x != reason ==> (x in rs + Emit(fires, reason) <==> x in rs)
    ensures |rs + Emit(fires, reason)| <= |rs| + 1
  {
  }

  /** `rs` is what the first `|fired|` factors push: in factor order, one
      reason at most per factor, and a factor's reason exactly when it fired. */
  predicate Explained(rs: seq<Reason>, fired: seq<bool>) {
    && InFactorOrder(rs) && |rs| <= |fired|
    && (forall y :: y in rs ==> y.Position() < |fired|)
    && (forall y: Reason :: y.Position() < |fired| ==> (y in rs <==> fired[y.Position()]))
  }

  /** Evaluating the next factor extends what the earlier ones pushed. */
  lemma ExplainStep(rs: seq<Reason>, fired: seq<bool>, fires: bool, reason: Reason)
    requires Explained(rs, fired) && reason.Position() == |fired|
    ensures Explained(rs + Emit(fires, reason), fired + [fires])
  {
    EmitInOrder(rs, fires, reason);
    var next := rs + Emit(fires, reason);
    forall y: Reason | y.Position() < |fired| + 1
      ensures y in next <==> (fired + [fires])[y.Position()]
    {
      if y != reason {
        assert y.Position() != reason.Position();
      }
    }
  }

  /** The reasons the source pushes, in its evaluation order, given which
      factors fired. */
  function Explain(skill: bool, loc: bool, mode: bool, salary: bool, exp: bool): (rs: seq<Reason>)
    ensures StrongSkillAlignment in rs <==> skill
    ensures LocationMatched in rs <==> loc
    ensures PreferredWorkMode in rs <==> mode
    ensures SalaryWithinRange in rs <==> salary
    ensures ExperienceLevelMatch in rs <==> exp
    ensures InFactorOrder(rs)
    ensures |rs| <= 5
    ensures BonusOf(rs) == Points(loc, LocationMatched) + Points(mode, PreferredWorkMode)
                           + Points(salary, SalaryWithinRange) + Points(exp, ExperienceLevelMatch)
  {
    var rs := Emit(skill, StrongSkillAlignment) + Emit(loc, LocationMatched)
              + Emit(mode, PreferredWorkMode) + Emit(salary, SalaryWithinRange)
              + Emit(exp, ExperienceLevelMatch);
    ExplainInOrder(skill, loc, mode, salary, exp);
    ExplainBonus(skill, loc, mode, salary, exp);
    rs
  }

  lemma ExplainInOrder(skill: bool, loc: bool, mode: bool, salary: bool, exp: bool)
    ensures var rs := Emit(skill, StrongSkillAlignment) + Emit(loc, LocationMatched)
                      + Emit(mode, PreferredWorkMode) + Emit(salary, SalaryWithinRange)
                      + Emit(exp, ExperienceLevelMatch);
            InFactorOrder(rs) && |rs| <= 5
            && (StrongSkillAlignment in rs <==> skill) && (LocationMatched in rs <==> loc)
            && (PreferredWorkMode in rs <==> mode) && (SalaryWithinRange in rs <==> salary)
            && (ExperienceLevelMatch in rs <==> exp)
  {
    ExplainFive(skill, loc, mode, salary, exp);
    ExplainedAll(Emit(skill, StrongSkillAlignment) + Emit(loc, LocationMatched)
                 + Emit(mode, PreferredWorkMode) + Emit(salary, SalaryWithinRange)
                 + Emit(exp, ExperienceLevelMatch), [skill, loc, mode, salary, exp]);
  }

  /** What all five factors push, read factor by factor. */
  lemma ExplainedAll(rs: seq<Reason>, fired: seq<bool>)
    requires |fired| == 5 && Explained(rs, fired)
    ensures InFactorOrder(rs) && |rs| <= 5
    ensures StrongSkillAlignment in rs <==> fired[0]
    ensures LocationMatched in rs <==> fired[1]
    ensures PreferredWorkMode in rs <==> fired[2]
    ensures SalaryWithinRange in rs <==> fired[3]
    ensures ExperienceLevelMatch in rs <==> fired[4]
  {
  }

  /** The factors one at a time, each stage extending the one before. */
  lemma ExplainOne(skill: bool)
    ensures Explained(Emit(skill, StrongSkillAlignment), [skill])
  {
    assert Explained([], []);
    ExplainStep([], [], skill, StrongSkillAlignment);
    assert [] + Emit(skill, StrongSkillAlignment) == Emit(skill, StrongSkillAlignment);
    assert [] + [skill] == [skill];
  }

  lemma ExplainTwo(skill: bool, loc: bool)
    ensures Explained(Emit(skill, StrongSkillAlignment) + Emit(loc, LocationMatched), [skill, loc])
  {
    ExplainOne(skill);
    ExplainStep(Emit(skill, StrongSkillAlignment), [skill], loc, LocationMatched);
    assert [skill] + [loc] == [skill, loc];
  }

  lemma ExplainThree(skill: bool, loc: bool, mode: bool)
    ensures Explained(Emit(skill, StrongSkillAlignment) + Emit(loc, LocationMatched)
                      + Emit(mode, PreferredWorkMode), [skill, loc, mode])
  {
    ExplainTwo(skill, loc);
    ExplainStep(Emit(skill, StrongSkillAlignment) + Emit(loc, LocationMatched), [skill, loc],
                mode, PreferredWorkMode);
    assert [skill, loc] + [mode] == [skill, loc, mode];
  }

  lemma ExplainFour(skill: bool, loc: bool, mode: bool, salary: bool)
    ensures Explained(Emit(skill, StrongSkillAlignment) + Emit(loc, LocationMatched)
                      + Emit(mode, PreferredWorkMode) + Emit(salary, SalaryWithinRange),
                      [skill, loc, mode, salary])
  {
    ExplainThree(skill, loc, mode);
    ExplainStep(Emit(skill, StrongSkillAlignment) + Emit(loc, LocationMatched)
                + Emit(mode, PreferredWorkMode), [skill, loc, mode], salary, SalaryWithinRange);
    assert [skill, loc, mode] + [salary] == [skill, loc, mode, salary];
  }

  lemma ExplainFive(skill: bool, loc: bool, mode: bool, salary: bool, exp: bool)
    ensures Explained(Emit(skill, StrongSkillAlignment) + Emit(loc, LocationMatched)
                      + Emit(mode, PreferredWorkMode) + Emit(salary, SalaryWithinRange)
                      + Emit(exp, ExperienceLevelMatch), [skill, loc, mode, salary, exp])
  {
    ExplainFour(skill, loc, mode, salary);
    ExplainStep(Emit(skill, StrongSkillAlignment) + Emit(loc, LocationMatched)
                + Emit(mode, PreferredWorkMode) + Emit(salary, SalaryWithinRange),
                [skill, loc, mode, salary], exp, ExperienceLevelMatch);
    assert [skill, loc, mode, salary] + [exp] == [skill, loc, mode, salary, exp];
  }

  lemma ExplainBonus(skill: bool, loc: bool, mode: bool, salary: bool, exp: bool)
    ensures BonusOf(Emit(skill, StrongSkillAlignment) + Emit(loc, LocationMatched)
                    + Emit(mode, PreferredWorkMode) + Emit(salary, SalaryWithinRange)
                    + Emit(exp, ExperienceLevelMatch))
            == Points(loc, LocationMatched) + Points(mode, PreferredWorkMode)
               + Points(salary, SalaryWithinRange) + Points(exp, ExperienceLevelMatch)
  {
    var a := Emit(skill, StrongSkillAlignment);
    var b := Emit(loc, LocationMatched);
    var c := Emit(mode, PreferredWorkMode);
    var d := Emit(salary, SalaryWithinRange);
    var e := Emit(exp, ExperienceLevelMatch);
    assert BonusOf(a) == 0 by {
      var _ := Points(skill, StrongSkillAlignment);
    }
    BonusOfAppend(a, b);
    BonusOfAppend(a + b, c);
    BonusOfAppend(a + b + c, d);
    BonusOfAppend(a + b + c + d, e);
  }

  /** `Math.min(a, b)`. */
  function Min(a: int, b: int): (m: int)
    ensures m <= a && m <= b
    ensures m == a || m == b
  {
    if a <= b then a else b
  }

  /** The unclamped score: the rounded skill points plus the bonus of every
      other factor that fired. It never exceeds 100. */
  function Tally(fraction: Ratio, loc: bool, mode: bool, salary: bool, exp: bool): (total: nat)
    requires 1 <= fraction.den && fraction.num <= fraction.den
    ensures total <= 100
    ensures total == SkillPoints(fraction) + BonusOf(Explain(StrongSkills(fraction), loc, mode, salary, exp))
  {
    var bonus := Points(loc, LocationMatched) + Points(mode, PreferredWorkMode)
                 + Points(salary, SalaryWithinRange) + Points(exp, ExperienceLevelMatch);
    assert bonus <= 60;
    SkillPoints(fraction) + bonus
  }

  /** The result record for `job` once the factors are evaluated: the job's
      identity copied, the clamped score and the reasons. */
  function Assemble(job: Job, fraction: Ratio, loc: bool, mode: bool, salary: bool, exp: bool): (r: MatchResult)
    requires 1 <= fraction.den && fraction.num <= fraction.den
    ensures r.jobId == job.id && r.title == job.title
    ensures r.company == job.company && r.location == job.location
    ensures 0 <= r.score <= 100
    ensures r.score == SkillPoints(fraction) + BonusOf(r.reasons)
    ensures r.reasons == Explain(StrongSkills(fraction), loc, mode, salary, exp)
  {
    var reasons := Explain(StrongSkills(fraction), loc, mode, salary, exp);
    MatchResult(job.id, job.title, job.company, job.location,
                Min(100, Tally(fraction, loc, mode, salary, exp)), reasons)
  }

  /** `matchJobToUser(job, user)`. */
  function MatchJobToUser(job: Job, user: User): (r: MatchResult)
    requires SkillsReadable(job, user)
    ensures r.jobId == job.id && r.title == job.title
    ensures r.company == job.company && r.location == job.location
    ensures 0 <= r.score <= 100
    ensures r.score == SkillPoints(SkillFraction(job, user)) + BonusOf(r.reasons)
    ensures StrongSkillAlignment in r.reasons <==> StrongSkills(SkillFraction(job, user))
    ensures LocationMatched in r.reasons <==> LocationFactor(job, user)
    ensures PreferredWorkMode in r.reasons <==> WorkModeFactor(job, user)
    ensures SalaryWithinRange in r.reasons <==> SalaryFactor(job, user)
    ensures ExperienceLevelMatch in r.reasons <==> ExperienceFactor(job, user)
    ensures InFactorOrder(r.reasons)
    ensures |r.reasons| <= 5
  {
    Assemble(job, SkillFraction(job, user), LocationFactor(job, user), WorkModeFactor(job, user),
             SalaryFactor(job, user), ExperienceFactor(job, user))
  }

  /** A reason is listed exactly when its factor fires. */
  lemma ReasonsIffFactorsFire(job: Job, user: User, reason: Reason)
    requires SkillsReadable(job, user)
    ensures reason in MatchJobToUser(job, user).reasons <==> Fires(reason, job, user)
  {
    match reason
    case StrongSkillAlignment =>
    case LocationMatched =>
    case PreferredWorkMode =>
    case SalaryWithinRange =>
    case ExperienceLevelMatch =>
  }

  lemma AssembleWeighted(job: Job, f: Ratio, loc: bool, mode: bool, salary: bool, exp: bool)
    requires 1 <= f.den && f.num <= f.den
    ensures Assemble(job, f, loc, mode, salary, exp).score
            == SkillPoints(f) + (if loc then 20 else 0) + (if mode then 15 else 0)
               + (if salary then 15 else 0) + (if exp then 10 else 0)
  {
    ExplainBonus(StrongSkills(f), loc, mode, salary, exp);
  }

  /** The score is the rounded skill points plus 20, 15, 15 and 10 for the
      location, work-mode, salary and experience factors that fire; the
      `Math.min(100, …)` clamp never changes it. */
  lemma ScoreIsWeightedSum(job: Job, user: User)
    requires SkillsReadable(job, user)
    ensures MatchJobToUser(job, user).score
            == SkillPoints(SkillFraction(job, user))
               + (if LocationFactor(job, user) then 20 else 0)
               + (if WorkModeFactor(job, user) then 15 else 0)
               + (if SalaryFactor(job, user) then 15 else 0)
               + (if ExperienceFactor(job, user) then 10 else 0)
  {
    AssembleWeighted(job, SkillFraction(job, user), LocationFactor(job, user), WorkModeFactor(job, user),
                     SalaryFactor(job, user), ExperienceFactor(job, user));
  }

  /** When every factor fires in full the score is exactly 100 and all five
      reasons appear in factor order. */
  lemma AllFactorsGiveFullScore(job: Job, user: User)
    requires SkillsReadable(job, user)
    requires SkillFraction(job, user).num == SkillFraction(job, user).den
    requires LocationFactor(job, user) && WorkModeFactor(job, user)
    requires SalaryFactor(job, user) && ExperienceFactor(job, user)
    ensures MatchJobToUser(job, user).score == 100
    ensures MatchJobToUser(job, user).reasons
            == [StrongSkillAlignment, LocationMatched, PreferredWorkMode, SalaryWithinRange, ExperienceLevelMatch]
  {
    var f := SkillFraction(job, user);
    AssembleWeighted(job, f, true, true, true, true);
    assert StrongSkills(f);
    ExplainAllFire();
  }

  lemma ExplainAllFire()
    ensures Explain(true, true, true, true, true)
            == [StrongSkillAlignment, LocationMatched, PreferredWorkMode, SalaryWithinRange, ExperienceLevelMatch]
  {
  }

  /** No two reasons share a text, so the texts identify the factors. */
  lemma ReasonTextsDistinct(a: Reason, b: Reason)
    requires a.Text() == b.Text()
    ensures a == b
  {
  }
}
