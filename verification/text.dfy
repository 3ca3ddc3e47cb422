/** Text primitives of the matching engine: `normalize` and the substring test
    behind `String.prototype.includes`. */
module Text {
  import opened Wrappers

  /** The characters `String.prototype.trim` removes: ECMAScript's WhiteSpace
      (tab, vertical tab, form feed, ZWNBSP and every Zs space) and
      LineTerminator code points. */
  predicate IsSpace(c: char) {
    || c == '\t' || c == '\n' || c == '\U{000B}' || c == '\U{000C}' || c == '\r'
    || c == ' ' || c == '\U{00A0}' || c == '\U{1680}'
    || ('\U{2000}' <= c <= '\U{200A}')
    || c == '\U{2028}' || c == '\U{2029}' || c == '\U{202F}' || c == '\U{205F}'
    || c == '\U{3000}' || c == '\U{FEFF}'
  }

  predicate IsUpper(c: char) {
    'A' <= c <= 'Z'
  }

  /** True when `s` neither starts nor ends with a space character. */
  predicate Trimmed(s: string) {
    s == [] || (!IsSpace(s[0]) && !IsSpace(s[|s| - 1]))
  }

  /** Every character of `s` from index `lo` up to `hi` is a space. */
  predicate SpaceRun(s: string, lo: int, hi: int) {
    0 <= lo <= hi <= |s| && forall i :: lo <= i < hi ==> IsSpace(s[i])
  }

  /** Lower-casing of one character, restricted to the ASCII letters. */
  function LowerChar(c: char): (d: char)
    ensures !IsUpper(d)
    ensures !IsUpper(c) ==> d == c
    ensures IsUpper(c) ==> d as int == c as int + 32
    ensures IsSpace(d) <==> IsSpace(c)
  {
    if IsUpper(c) then (c as int + 32) as char else c
  }

  /** `String.prototype.toLowerCase`, restricted to the ASCII letters. */
  function Lower(s: string): (r: string)
    ensures |r| == |s|
    ensures forall i :: 0 <= i < |s| ==> r[i] == LowerChar(s[i])
  {
    seq(|s|, i requires 0 <= i < |s| => LowerChar(s[i]))
  }

  /** The end of the run of spaces that starts at index `i` of `s`. */
  function SpacesFrom(s: string, i: nat): (j: nat)
    requires i <= |s|
    ensures i <= j <= |s| && SpaceRun(s, i, j)
    ensures j == |s| || !IsSpace(s[j])
    decreases |s| - i
  {
    if i < |s| && IsSpace(s[i]) then SpacesFrom(s, i + 1) else i
  }

  /** The start of the run of spaces that ends at index `j` of `s`, not
      reaching below `lo`. */
  function SpacesBefore(s: string, lo: nat, j: nat): (i: nat)
    requires lo <= j <= |s|
    ensures lo <= i <= j && SpaceRun(s, i, j)
    ensures i == lo || !IsSpace(s[i - 1])
    decreases j
  {
    if lo < j && IsSpace(s[j - 1]) then SpacesBefore(s, lo, j - 1) else j
  }

  /** `String.prototype.trim`: the result is the middle of `s` once the
      leading and trailing runs of spaces are cut away. */
  function Trim(s: string): (r: string)
    ensures Trimmed(r)
    ensures exists lead :: 0 <= lead <= |s| - |r| && r == s[lead..lead + |r|]
                           && SpaceRun(s, 0, lead) && SpaceRun(s, lead + |r|, |s|)
  {
    var lead := SpacesFrom(s, 0);
    var end := SpacesBefore(s, lead, |s|);
    s[lead..end]
  }

  /** `normalize(text)`: `(text || "").toString().trim().toLowerCase()`.
      An absent text normalizes like the empty string. */
  function Normalize(text: Option<string>): (r: string)
    ensures text == None || text == Some("") ==> r == ""
    ensures Trimmed(r)
    ensures forall i :: 0 <= i < |r| ==> !IsUpper(r[i])
    ensures |r| <= |text.GetOr("")|
  {
    Lower(Trim(text.GetOr("")))
  }

  lemma TrimOfTrimmed(s: string)
    requires Trimmed(s)
    ensures Trim(s) == s
  {
    assert SpacesFrom(s, 0) == 0;
    assert SpacesBefore(s, 0, |s|) == |s|;
  }

  /** Text with no outer space normalizes to its lower-cased form. */
  lemma NormalizeOfTrimmed(s: string)
    requires Trimmed(s)
    ensures Normalize(Some(s)) == Lower(s)
  {
    TrimOfTrimmed(s);
  }

  /** A string splits only one way into a space run, a trimmed core and a
      space run: two such splits `lead`/`end` and `a`/`b` agree. */
  lemma CoreUnique(t: string, lead: nat, end: nat, a: nat, b: nat)
    requires lead <= end <= |t| && SpaceRun(t, 0, lead) && SpaceRun(t, end, |t|)
    requires Trimmed(t[lead..end])
    requires a <= b <= |t| && SpaceRun(t, 0, a) && SpaceRun(t, b, |t|) && Trimmed(t[a..b])
    ensures (lead == end && a == b) || (lead == a && end == b)
  {
    assert lead < end ==> t[lead..end][0] == t[lead] && t[lead..end][end - lead - 1] == t[end - 1];
    assert a < b ==> t[a..b][0] == t[a] && t[a..b][b - a - 1] == t[b - 1];
  }

  /** `trim` returns the core of that split. Only the contract of `Trim` is
      used, so any `Trim` meeting it behaves this way. */
  lemma TrimUnique(t: string, a: nat, b: nat)
    requires a <= b <= |t| && SpaceRun(t, 0, a) && SpaceRun(t, b, |t|) && Trimmed(t[a..b])
    ensures Trim(t) == t[a..b]
  {
    var r := Trim(t);
    var lead :| 0 <= lead <= |t| - |r| && r == t[lead..lead + |r|]
                && SpaceRun(t, 0, lead) && SpaceRun(t, lead + |r|, |t|);
    CoreUnique(t, lead, lead + |r|, a, b);
  }

  /** `trim` removes exactly the space runs around a trimmed core. */
  lemma TrimIgnoresPadding(p: string, s: string, q: string)
    requires SpaceRun(p, 0, |p|) && SpaceRun(q, 0, |q|) && Trimmed(s)
    ensures Trim(p + s + q) == s
  {
    var t := p + s + q;
    var b := |p| + |s|;
    assert t[|p|..b] == s;
    assert SpaceRun(t, 0, |p|) by {
      assert forall i :: 0 <= i < |p| ==> t[i] == p[i];
    }
    assert SpaceRun(t, b, |t|) by {
      assert forall i :: b <= i < |t| ==> t[i] == q[i - b];
    }
    TrimUnique(t, |p|, b);
  }

  /** Text padded with space on either side normalizes like its core. With
      `NormalizeOfTrimmed` this fixes `Normalize` on every text, since every
      string is a space run, a trimmed core and a space run. */
  lemma NormalizeIgnoresPadding(p: string, s: string, q: string)
    requires SpaceRun(p, 0, |p|) && SpaceRun(q, 0, |q|) && Trimmed(s)
    ensures Normalize(Some(p + s + q)) == Lower(s)
  {
    TrimIgnoresPadding(p, s, q);
  }

  lemma LowerOfLower(s: string)
    requires forall i :: 0 <= i < |s| ==> !IsUpper(s[i])
    ensures Lower(s) == s
  {
  }

  /** Normalizing twice is the same as normalizing once. */
  lemma NormalizeIdempotent(text: Option<string>)
    ensures Normalize(Some(Normalize(text))) == Normalize(text)
  {
    var n := Normalize(text);
    TrimOfTrimmed(n);
    LowerOfLower(n);
  }

  /** `t` occurs in `s` starting at index `i`. */
  predicate OccursAt(s: string, t: string, i: int) {
    0 <= i && i + |t| <= |s| && s[i..i + |t|] == t
  }

  /** `s.includes(t)`: `t` is a prefix of `s` or of one of its suffixes. */
  function Contains(s: string, t: string): (b: bool)
    ensures t <= s ==> b
    ensures b ==> |t| <= |s|
    decreases |s|
  {
    t <= s || (s != [] && Contains(s[1..], t))
  }

  /** `Contains` is exactly "occurs at some index". */
  lemma {:induction false} ContainsIffOccurs(s: string, t: string)
    ensures Contains(s, t) <==> exists i :: OccursAt(s, t, i)
    decreases |s|
  {
    if t <= s {
      assert OccursAt(s, t, 0);
    } else if s == [] {
      assert t != [];
    } else {
      ContainsIffOccurs(s[1..], t);
      if exists i :: OccursAt(s[1..], t, i) {
        var i :| OccursAt(s[1..], t, i);
        assert s[1..][i..i + |t|] == s[i + 1..i + 1 + |t|];
        assert OccursAt(s, t, i + 1);
      }
      assert OccursAt(s, t, 0) ==> t <= s;
      if exists i :: OccursAt(s, t, i) {
        var i :| OccursAt(s, t, i);
        assert s[1..][i - 1..i - 1 + |t|] == s[i..i + |t|];
        assert OccursAt(s[1..], t, i - 1);
      }
    }
  }
}
