/** `skillMatch`: the share of a job's required skills the user holds. */
module Skills {
  import opened Wrappers
  import opened Text

  /** An exact fraction `num / den`, in place of the source's floating-point
      quotient. */
  datatype Ratio = Ratio(num: nat, den: nat)

  /** `userSkills.map(normalize)`. */
  function NormalizeAll(skills: seq<string>): (r: seq<string>)
    ensures |r| == |skills|
    ensures forall i :: 0 <= i < |skills| ==> r[i] == Normalize(Some(skills[i]))
  {
    seq(|skills|, i requires 0 <= i < |skills| => Normalize(Some(skills[i])))
  }

  /** `matchCount` after the `forEach`: how many of the `wanted` skills
      (already normalized) are among the `held` ones. */
  function CountHeld(held: seq<string>, wanted: seq<string>): (n: nat)
    ensures n <= |wanted|
    ensures n == |wanted| <==> forall i :: 0 <= i < |wanted| ==> wanted[i] in held
    ensures n == 0 <==> forall i :: 0 <= i < |wanted| ==> wanted[i] !in held
  {
    if wanted == [] then 0
    else
      var tail := wanted[1..];
      assert forall i :: 1 <= i < |wanted| ==> wanted[i] == tail[i - 1];
      (if wanted[0] in held then 1 else 0) + CountHeld(held, tail)
  }

  /** Counting over two lists one after the other adds the counts. */
  lemma {:induction false} CountHeldAppend(held: seq<string>, a: seq<string>, b: seq<string>)
    ensures CountHeld(held, a + b) == CountHeld(held, a) + CountHeld(held, b)
    decreases |a|
  {
    if a == [] {
      assert a + b == b;
    } else {
      assert (a + b)[0] == a[0];
      assert (a + b)[1..] == a[1..] + b;
      CountHeldAppend(held, a[1..], b);
    }
  }

  /** One wanted skill counts 1 when held and 0 otherwise; with
      `CountHeldAppend` this fixes the count of every list. */
  lemma CountHeldOne(held: seq<string>, w: string)
    ensures CountHeld(held, [w]) == if w in held then 1 else 0
  {
    assert [w][1..] == [];
  }

  /** Two of three wanted skills held gives a count of 2. */
  lemma CountHeldTwoOfThree(held: seq<string>, x: string, y: string, z: string)
    requires x in held && y in held && z !in held
    ensures CountHeld(held, [x, y, z]) == 2
  {
    CountHeldOne(held, x);
    CountHeldOne(held, y);
    CountHeldOne(held, z);
    CountHeldAppend(held, [x], [y]);
    assert [x] + [y] == [x, y];
    CountHeldAppend(held, [x, y], [z]);
    assert [x, y] + [z] == [x, y, z];
  }

  /** `skillMatch(userSkills, jobSkills)`: 1 when the job lists no skill;
      otherwise the count of held required skills over the count of
      required skills. The user's skills are read only in the second case. */
  function SkillMatch(userSkills: Option<seq<string>>, jobSkills: Option<seq<string>>): (r: Ratio)
    requires jobSkills.Some? && jobSkills.value != [] ==> userSkills.Some?
    ensures 0 <= r.num <= r.den && r.den >= 1
    ensures jobSkills.None? || jobSkills.value == [] ==> r == Ratio(1, 1)
    ensures jobSkills.Some? && jobSkills.value != [] ==> r.den == |jobSkills.value|
    ensures jobSkills.Some? && jobSkills.value != [] ==>
              r.num == CountHeld(NormalizeAll(userSkills.value), NormalizeAll(jobSkills.value))
    ensures r.num == r.den <==>
              (jobSkills.None? ||
               forall i :: 0 <= i < |jobSkills.value| ==>
                 Normalize(Some(jobSkills.value[i])) in NormalizeAll(userSkills.value))
    ensures jobSkills.Some? && jobSkills.value != [] ==>
              (r.num == 0 <==> forall i :: 0 <= i < |jobSkills.value| ==>
                 Normalize(Some(jobSkills.value[i])) !in NormalizeAll(userSkills.value))
  {
    if jobSkills.None? || jobSkills.value == [] then Ratio(1, 1)
    else Ratio(CountHeld(NormalizeAll(userSkills.value), NormalizeAll(jobSkills.value)), |jobSkills.value|)
  }

  /** A job without required skills is fully matched by any user. */
  lemma SkillMatchNoRequirements(userSkills: Option<seq<string>>)
    ensures SkillMatch(userSkills, None) == Ratio(1, 1)
    ensures SkillMatch(userSkills, Some([])) == Ratio(1, 1)
  {
  }
}
