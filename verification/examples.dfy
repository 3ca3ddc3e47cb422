/** A worked scenario: a remote mid-level Python job and a user who fits it
    on every factor scores exactly 100 with all five reasons. */
module Examples {
  import opened Wrappers
  import opened Text
  import opened Location
  import opened Salary
  import opened Skills
  import opened Records
  import opened Scoring

  /** The sample user wants 60000–90000; like the job's, the salary text is
      built from the numerals `ShowNat(60000)` and `ShowNat(90000)`. */
  function SampleUser(): User {
    User("u1", "Ada", Some(["Python", "SQL"]), Some("Mid"), true,
         Preferences(Some("Remote"), Some("Remote"), Some(ShowNat(60000) + [RangeSeparator] + ShowNat(90000))))
  }

  /** The sample job pays 70000–85000, written as `ShowNat(70000)`, the en
      dash and `ShowNat(85000)`. */
  function SampleJob(): Job {
    Job("j1", "Data Engineer", "Acme", Some("Remote - US"), Some("Remote"),
        Some(ShowNat(70000) + [RangeSeparator] + ShowNat(85000)), Some("Mid"), None, Some(["Python"]))
  }

  lemma SampleSkillsHeld()
    ensures SkillsReadable(SampleJob(), SampleUser())
    ensures SkillFraction(SampleJob(), SampleUser()) == Ratio(1, 1)
  {
    assert Normalize(Some("Python")) in NormalizeAll(["Python", "SQL"]) by {
      assert NormalizeAll(["Python", "SQL"])[0] == Normalize(Some("Python"));
    }
  }

  lemma NormalizeRemote()
    ensures Normalize(Some("Remote")) == "remote"
  {
    assert Trimmed("Remote");
    NormalizeOfTrimmed("Remote");
    var s := "Remote";
    forall k | 0 <= k < |s| ensures Lower(s)[k] == "remote"[k] {
      assert Lower(s)[k] == LowerChar(s[k]);
    }
  }

  lemma LowerRemoteUS()
    ensures Lower("Remote - US") == "remote - us"
  {
    var s := "Remote - US";
    forall k | 0 <= k < |s| ensures Lower(s)[k] == "remote - us"[k] {
      assert Lower(s)[k] == LowerChar(s[k]);
    }
  }

  lemma NormalizeRemoteUS()
    ensures Normalize(Some("Remote - US")) == "remote - us"
  {
    assert Trimmed("Remote - US");
    NormalizeOfTrimmed("Remote - US");
    LowerRemoteUS();
  }

  /** A location whose normalized form starts with the other's matches it. */
  lemma LocationMatchOfPrefix(a: Option<string>, b: Option<string>)
    requires Normalize(b) <= Normalize(a)
    ensures LocationMatch(a, b)
  {
    assert Contains(Normalize(a), Normalize(b));
  }

  lemma SampleLocationMatches()
    ensures LocationFactor(SampleJob(), SampleUser())
  {
    NormalizeRemote();
    NormalizeRemoteUS();
    assert "remote" <= "remote - us";
    LocationMatchOfPrefix(Some("Remote - US"), Some("Remote"));
  }

  lemma SampleWorkModeMatches()
    ensures WorkModeFactor(SampleJob(), SampleUser())
  {
  }

  lemma JobSalaryParses()
    ensures ExtractSalary(SampleJob().salaryRange) == SalaryRange(70000, 85000)
  {
    ExtractSalaryOfNumbers(70000, 85000);
  }

  lemma UserSalaryParses()
    ensures ExtractSalary(SampleUser().preferences.salaryRange) == SalaryRange(60000, 90000)
  {
    ExtractSalaryOfNumbers(60000, 90000);
  }

  lemma SampleSalaryFits()
    ensures SalaryFactor(SampleJob(), SampleUser())
  {
    JobSalaryParses();
    UserSalaryParses();
  }

  lemma SampleExperienceMatches()
    ensures ExperienceFactor(SampleJob(), SampleUser())
  {
  }

  /** The scenario scores 100 and lists every reason in factor order. */
  lemma SampleScoresFull()
    ensures MatchJobToUser(SampleJob(), SampleUser()).score == 100
    ensures MatchJobToUser(SampleJob(), SampleUser()).reasons
            == [StrongSkillAlignment, LocationMatched, PreferredWorkMode, SalaryWithinRange, ExperienceLevelMatch]
  {
    SampleSkillsHeld();
    SampleLocationMatches();
    SampleWorkModeMatches();
    SampleSalaryFits();
    SampleExperienceMatches();
    AllFactorsGiveFullScore(SampleJob(), SampleUser());
  }
}
