/** The records the matching engine reads and writes. Text fields that the
    engine only normalizes or parses may be absent (`None`). */
module Records {
  import opened Wrappers

  /** A job posting. The required skills may come under either field name,
      `skills` or `requiredSkills`. */
  datatype Job = Job(
    id: string,
    title: string,
    company: string,
    location: Option<string>,
    jobType: Option<string>,
    salaryRange: Option<string>,
    experienceLevel: Option<string>,
    skills: Option<seq<string>>,
    requiredSkills: Option<seq<string>>)

  datatype Preferences = Preferences(
    location: Option<string>,
    jobType: Option<string>,
    salaryRange: Option<string>)

  /** A candidate. Only users with `autoApply` set are ranked. */
  datatype User = User(
    id: string,
    name: string,
    skills: Option<seq<string>>,
    experienceLevel: Option<string>,
    autoApply: bool,
    preferences: Preferences)

  /** The explanations a match can carry, one per scoring factor. */
  datatype Reason =
    | StrongSkillAlignment
    | LocationMatched
    | PreferredWorkMode
    | SalaryWithinRange
    | ExperienceLevelMatch
  {
    /** The text the source pushes onto `reasons`. */
    function Text(): string {
      match this
      case StrongSkillAlignment => "Strong skill alignment"
      case LocationMatched => "Location match"
      case PreferredWorkMode => "Preferred work mode"
      case SalaryWithinRange => "Salary within range"
      case ExperienceLevelMatch => "Experience level match"
    }

    /** Where the factor stands in the fixed evaluation order. */
    function Position(): nat {
      match this
      case StrongSkillAlignment => 0
      case LocationMatched => 1
      case PreferredWorkMode => 2
      case SalaryWithinRange => 3
      case ExperienceLevelMatch => 4
    }

    /** Whole points the factor adds when it fires. The skill factor is not
        all-or-nothing: its up to 40 points scale with the skill fraction and
        are counted apart, so its reason carries no bonus of its own. */
    function Bonus(): nat {
      match this
      case StrongSkillAlignment => 0
      case LocationMatched => 20
      case PreferredWorkMode => 15
      case SalaryWithinRange => 15
      case ExperienceLevelMatch => 10
    }
  }

  /** The outcome of scoring one job for one user. */
  datatype MatchResult = MatchResult(
    jobId: string,
    title: string,
    company: string,
    location: Option<string>,
    score: int,
    reasons: seq<Reason>)

  /** One opted-in user's best matches. */
  datatype UserSummary = UserSummary(
    userId: string,
    userName: string,
    topMatches: seq<MatchResult>)
}
