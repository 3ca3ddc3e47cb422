/** `locationMatch`: a two-way substring test on normalized locations. */
module Location {
  import opened Wrappers
  import opened Text

  /** True when either normalized location contains the other. */
  function LocationMatch(jobLoc: Option<string>, userLoc: Option<string>): (r: bool)
    ensures r <==> ((exists i :: OccursAt(Normalize(jobLoc), Normalize(userLoc), i))
                    || (exists i :: OccursAt(Normalize(userLoc), Normalize(jobLoc), i)))
    ensures Normalize(jobLoc) == [] || Normalize(userLoc) == [] ==> r
  {
    var j := Normalize(jobLoc);
    var u := Normalize(userLoc);
    ContainsIffOccurs(j, u);
    ContainsIffOccurs(u, j);
    Contains(j, u) || Contains(u, j)
  }

  lemma LocationMatchSymmetric(a: Option<string>, b: Option<string>)
    ensures LocationMatch(a, b) == LocationMatch(b, a)
  {
  }

  lemma LocationMatchReflexive(a: Option<string>)
    ensures LocationMatch(a, a)
  {
    assert OccursAt(Normalize(a), Normalize(a), 0);
  }

  /** Only the normalized forms matter: case and surrounding space are ignored. */
  lemma LocationMatchOnlyNormalized(a: Option<string>, b: Option<string>, a': Option<string>, b': Option<string>)
    requires Normalize(a) == Normalize(a') && Normalize(b) == Normalize(b')
    ensures LocationMatch(a, b) == LocationMatch(a', b')
  {
  }

  /** A location padded with space matches exactly what its core matches. */
  lemma LocationMatchIgnoresPadding(p: string, s: string, q: string, other: Option<string>)
    requires SpaceRun(p, 0, |p|) && SpaceRun(q, 0, |q|) && Trimmed(s)
    ensures LocationMatch(Some(p + s + q), other) == LocationMatch(Some(s), other)
  {
    NormalizeIgnoresPadding(p, s, q);
    NormalizeOfTrimmed(s);
    LocationMatchOnlyNormalized(Some(p + s + q), other, Some(s), other);
  }
}
