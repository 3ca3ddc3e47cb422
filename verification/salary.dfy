/** `extractSalary`: lenient parsing of a salary range "<number>–<number>". */
module Salary {
  import opened Wrappers

  /** The range separator the source splits on: the en dash U+2013, not the
      ASCII hyphen. */
  const RangeSeparator: char := '\U{2013}'

  /** The lower and upper figure of a salary range. */
  datatype SalaryRange = SalaryRange(min: nat, max: nat)

  /** Index of the first occurrence of `c` in `s`. */
  function IndexOf(s: string, c: char): (i: nat)
    requires c in s
    ensures i < |s| && s[i] == c && c !in s[..i]
  {
    if s[0] == c then 0 else 1 + IndexOf(s[1..], c)
  }

  /** `String.prototype.split` with a one-character separator: the pieces
      between consecutive separators, including empty ones. */
  function Split(s: string, sep: char): (parts: seq<string>)
    ensures |parts| >= 1
    ensures forall k :: 0 <= k < |parts| ==> sep !in parts[k]
    ensures |parts| == 1 <==> sep !in s
    decreases |s|
  {
    if sep !in s then [s]
    else
      var i := IndexOf(s, sep);
      [s[..i]] + Split(s[i + 1..], sep)
  }

  /** The inverse of `Split`: the pieces glued back with the separator. */
  function Join(parts: seq<string>, sep: char): string
    requires |parts| >= 1
  {
    if |parts| == 1 then parts[0] else parts[0] + [sep] + Join(parts[1..], sep)
  }

  lemma {:induction false} JoinSplit(s: string, sep: char)
    ensures Join(Split(s, sep), sep) == s
    decreases |s|
  {
    if sep in s {
      var i := IndexOf(s, sep);
      var tail := Split(s[i + 1..], sep);
      var parts := Split(s, sep);
      assert parts == [s[..i]] + tail;
      assert parts[1..] == tail;
      calc {
        Join(parts, sep);
        s[..i] + [sep] + Join(tail, sep);
        { JoinSplit(s[i + 1..], sep); }
        s[..i] + [sep] + s[i + 1..];
        s;
      }
    }
  }

  lemma {:induction false} SplitJoin(parts: seq<string>, sep: char)
    requires |parts| >= 1
    requires forall k :: 0 <= k < |parts| ==> sep !in parts[k]
    ensures Split(Join(parts, sep), sep) == parts
    decreases |parts|
  {
    if |parts| > 1 {
      var s := Join(parts, sep);
      var rest := Join(parts[1..], sep);
      assert s == parts[0] + [sep] + rest;
      assert s[|parts[0]|] == sep;
      assert s[..|parts[0]|] == parts[0];
      assert IndexOf(s, sep) == |parts[0]| by {
        IndexOfFirst(s, sep, |parts[0]|);
      }
      assert s[|parts[0]| + 1..] == rest;
      SplitJoin(parts[1..], sep);
    }
  }

  lemma {:induction false} IndexOfFirst(s: string, c: char, i: nat)
    requires i < |s| && s[i] == c && c !in s[..i]
    ensures IndexOf(s, c) == i
    decreases i
  {
    if i > 0 {
      assert s[0] in s[..i];
      assert s[1..][..i - 1] == s[1..i];
      assert forall x :: x in s[1..i] ==> x in s[..i];
      IndexOfFirst(s[1..], c, i - 1);
    }
  }

  predicate IsDigit(c: char) {
    '0' <= c <= '9'
  }

  predicate AllDigits(s: string) {
    forall k :: 0 <= k < |s| ==> IsDigit(s[k])
  }

  predicate NoDigits(s: string) {
    forall k :: 0 <= k < |s| ==> !IsDigit(s[k])
  }

  /** `v.replace(/[^\d]/g, "")`: keeps the ASCII digits of `s`, in order. */
  function StripNonDigits(s: string): (r: string)
    ensures AllDigits(r)
    ensures |r| <= |s|
    ensures AllDigits(s) ==> r == s
    ensures r == [] <==> forall k :: 0 <= k < |s| ==> !IsDigit(s[k])
  {
    if s == [] then []
    else (if IsDigit(s[0]) then [s[0]] else []) + StripNonDigits(s[1..])
  }

  /** One character survives exactly when it is a digit. */
  lemma StripNonDigitsOne(c: char)
    ensures StripNonDigits([c]) == if IsDigit(c) then [c] else []
  {
    assert [c][1..] == [];
  }

  /** Stripping works piece by piece; with `StripNonDigitsOne` this says the
      result is the digits of `s`, in order. */
  lemma {:induction false} StripNonDigitsAppend(a: string, b: string)
    ensures StripNonDigits(a + b) == StripNonDigits(a) + StripNonDigits(b)
    decreases |a|
  {
    if a == [] {
      assert a + b == b;
    } else {
      var head := if IsDigit(a[0]) then [a[0]] else [];
      assert (a + b)[0] == a[0];
      assert (a + b)[1..] == a[1..] + b;
      calc {
        StripNonDigits(a + b);
        head + StripNonDigits(a[1..] + b);
        { StripNonDigitsAppend(a[1..], b); }
        head + (StripNonDigits(a[1..]) + StripNonDigits(b));
        (head + StripNonDigits(a[1..])) + StripNonDigits(b);
        StripNonDigits(a) + StripNonDigits(b);
      }
    }
  }

  function DigitValue(c: char): (d: nat)
    requires IsDigit(c)
    ensures d < 10
  {
    c as int - '0' as int
  }

  function DigitChar(d: nat): (c: char)
    requires d < 10
    ensures IsDigit(c) && DigitValue(c) == d
  {
    ('0' as int + d) as char
  }

  /** The number a string of decimal digits denotes, most significant first. */
  function DecimalValue(s: string): nat
    requires AllDigits(s)
  {
    if s == [] then 0 else DecimalValue(s[..|s| - 1]) * 10 + DigitValue(s[|s| - 1])
  }

  /** The decimal numeral of `n`, without leading zeros. */
  function ShowNat(n: nat): (s: string)
    ensures AllDigits(s) && |s| >= 1
    ensures RangeSeparator !in s
  {
    if n < 10 then [DigitChar(n)] else ShowNat(n / 10) + [DigitChar(n % 10)]
  }

  lemma {:induction false} DecimalValueOfShowNat(n: nat)
    ensures DecimalValue(ShowNat(n)) == n
  {
    if n >= 10 {
      var s := ShowNat(n);
      assert s[..|s| - 1] == ShowNat(n / 10);
      DecimalValueOfShowNat(n / 10);
    }
  }

  /** `parseInt(v.replace(/[^\d]/g, ""), 10)`; `None` stands for `NaN`, the
      result when no digit is left. */
  function ParseInt(s: string): (r: Option<nat>)
    ensures r == None <==> forall k :: 0 <= k < |s| ==> !IsDigit(s[k])
    ensures AllDigits(s) && s != [] ==> r == Some(DecimalValue(s))
    ensures r.Some? ==> r == Some(DecimalValue(StripNonDigits(s)))
  {
    var digits := StripNonDigits(s);
    if digits == [] then None else Some(DecimalValue(digits))
  }

  /** JavaScript's `x || fallback` on a parsed number: `NaN` and `0` are
      falsy and give way to the fallback. */
  function OrElse(x: Option<nat>, fallback: nat): (r: nat)
    ensures r == fallback || (x.Some? && r == x.value != 0)
    ensures x.Some? && x.value != 0 ==> r == x.value
  {
    if x.Some? && x.value != 0 then x.value else fallback
  }

  /** `extractSalary(value)`: an absent or empty value is `(0, 0)`; otherwise
      the value is split on the en dash, each of the first two pieces is
      parsed from its digits, a missing, digit-free or zero minimum becomes 0
      and a missing, digit-free or zero maximum becomes the minimum. */
  function ExtractSalary(value: Option<string>): (r: SalaryRange)
    ensures value == None || value == Some("") ==> r == SalaryRange(0, 0)
    ensures r.max == 0 ==> r.min == 0
    ensures value.Some? && RangeSeparator !in value.value ==> r.min == r.max
  {
    if value.None? || value.value == "" then SalaryRange(0, 0)
    else
      var parts := Split(value.value, RangeSeparator);
      var first := ParseInt(parts[0]);
      var second := if |parts| > 1 then ParseInt(parts[1]) else None;
      var lo := OrElse(first, 0);
      SalaryRange(lo, OrElse(second, lo))
  }

  /** A range "a–b" whose pieces hold no en dash parses piece by piece. */
  lemma ExtractSalaryOfPieces(a: string, b: string)
    requires RangeSeparator !in a && RangeSeparator !in b
    ensures var lo := OrElse(ParseInt(a), 0);
            ExtractSalary(Some(a + [RangeSeparator] + b)) == SalaryRange(lo, OrElse(ParseInt(b), lo))
  {
    SplitJoin([a, b], RangeSeparator);
    assert Join([a, b], RangeSeparator) == a + [RangeSeparator] + b;
  }

  /** Splitting cuts at the first separator and splits the rest. */
  lemma SplitAtFirst(a: string, rest: string, sep: char)
    requires sep !in a
    ensures Split(a + [sep] + rest, sep) == [a] + Split(rest, sep)
  {
    var s := a + [sep] + rest;
    assert s[|a|] == sep && s[..|a|] == a;
    IndexOfFirst(s, sep, |a|);
    assert s[|a| + 1..] == rest;
  }

  /** Only the first two pieces are read: "a–b–…" gives the range of `a`
      and the first piece after the dash, whatever follows. */
  lemma ExtractSalaryOfFirstTwo(a: string, rest: string)
    requires RangeSeparator !in a
    ensures var lo := OrElse(ParseInt(a), 0);
            ExtractSalary(Some(a + [RangeSeparator] + rest))
              == SalaryRange(lo, OrElse(ParseInt(Split(rest, RangeSeparator)[0]), lo))
  {
    SplitAtFirst(a, rest, RangeSeparator);
  }

  /** "a–b–c" with non-zero figures gives `(a, b)`: the third figure is
      ignored. */
  lemma ExtractSalaryOfThreeNumbers(a: nat, b: nat, c: nat)
    requires a > 0 && b > 0
    ensures ExtractSalary(Some(ShowNat(a) + [RangeSeparator] + ShowNat(b) + [RangeSeparator] + ShowNat(c)))
            == SalaryRange(a, b)
  {
    var rest := ShowNat(b) + [RangeSeparator] + ShowNat(c);
    assert ShowNat(a) + [RangeSeparator] + ShowNat(b) + [RangeSeparator] + ShowNat(c)
           == ShowNat(a) + [RangeSeparator] + rest;
    assert Split(rest, RangeSeparator)[0] == ShowNat(b) by {
      SplitAtFirst(ShowNat(b), ShowNat(c), RangeSeparator);
    }
    assert ParseInt(ShowNat(a)) == Some(a) by {
      DecimalValueOfShowNat(a);
    }
    assert ParseInt(ShowNat(b)) == Some(b) by {
      DecimalValueOfShowNat(b);
    }
    ExtractSalaryOfFirstTwo(ShowNat(a), rest);
  }

  /** "a–b" with both figures non-zero gives `(a, b)`. */
  lemma ExtractSalaryOfNumbers(a: nat, b: nat)
    requires a > 0 && b > 0
    ensures ExtractSalary(Some(ShowNat(a) + [RangeSeparator] + ShowNat(b))) == SalaryRange(a, b)
  {
    DecimalValueOfShowNat(a);
    DecimalValueOfShowNat(b);
    ExtractSalaryOfPieces(ShowNat(a), ShowNat(b));
  }

  /** A single figure with no en dash gives `(n, n)`. */
  lemma ExtractSalaryOfNumber(n: nat)
    ensures ExtractSalary(Some(ShowNat(n))) == SalaryRange(n, n)
  {
    DecimalValueOfShowNat(n);
  }

  /** A zero maximum falls back to the minimum: "70000–0" gives (70000, 70000). */
  lemma ExtractSalaryZeroMax(a: nat)
    requires a > 0
    ensures ExtractSalary(Some(ShowNat(a) + [RangeSeparator] + "0")) == SalaryRange(a, a)
  {
    DecimalValueOfShowNat(a);
    ExtractSalaryOfPieces(ShowNat(a), "0");
  }

  /** Characters other than digits around and between the digit groups are
      ignored: `"$70,000"` reads as 70000. */
  lemma ParseIntSkipsNonDigits(x: string, d1: string, y: string, d2: string, z: string)
    requires NoDigits(x) && NoDigits(y) && NoDigits(z)
    requires AllDigits(d1) && AllDigits(d2) && d1 + d2 != []
    ensures AllDigits(d1 + d2)
    ensures ParseInt(x + d1 + y + d2 + z) == Some(DecimalValue(d1 + d2))
  {
    var s1 := x + d1;
    var s2 := s1 + y;
    var s3 := s2 + d2;
    assert StripNonDigits(s1) == d1 by {
      StripNonDigitsSkipsLeft(x, d1);
    }
    assert StripNonDigits(s2) == d1 by {
      StripNonDigitsSkipsRight(s1, y);
    }
    assert StripNonDigits(s3) == d1 + d2 by {
      StripNonDigitsAppend(s2, d2);
    }
    assert StripNonDigits(s3 + z) == d1 + d2 by {
      StripNonDigitsSkipsRight(s3, z);
    }
  }

  lemma StripNonDigitsSkipsLeft(x: string, s: string)
    requires NoDigits(x)
    ensures StripNonDigits(x + s) == StripNonDigits(s)
  {
    StripNonDigitsAppend(x, s);
    assert StripNonDigits(x) == [];
  }

  lemma StripNonDigitsSkipsRight(s: string, z: string)
    requires NoDigits(z)
    ensures StripNonDigits(s + z) == StripNonDigits(s)
  {
    StripNonDigitsAppend(s, z);
    assert StripNonDigits(z) == [];
  }

  /** A non-empty value without the en dash is one figure: both bounds are
      its parsed value, or 0 when nothing parses. */
  lemma ExtractSalaryOfFigure(a: string)
    requires a != [] && RangeSeparator !in a
    ensures var v := OrElse(ParseInt(a), 0); ExtractSalary(Some(a)) == SalaryRange(v, v)
  {
    assert Split(a, RangeSeparator) == [a];
  }

  /** A missing minimum falls back to 0 while the maximum stays: "–b" gives (0, b). */
  lemma ExtractSalaryMissingMin(b: nat)
    requires b > 0
    ensures ExtractSalary(Some([RangeSeparator] + ShowNat(b))) == SalaryRange(0, b)
  {
    var digits := ShowNat(b);
    assert ParseInt(digits) == Some(b) by {
      DecimalValueOfShowNat(b);
    }
    assert [RangeSeparator] + digits == "" + [RangeSeparator] + digits;
    ExtractSalaryOfPieces("", digits);
  }

  /** A range written with the ASCII hyphen has no en dash, so it reads as one
      figure made of all the digits on both sides. */
  lemma ExtractSalaryHyphenRange()
    ensures ExtractSalary(Some("5-7")) == SalaryRange(57, 57)
  {
    assert Split("5-7", RangeSeparator) == ["5-7"];
    assert StripNonDigits("5-7") == "57" by {
      assert "5-7"[1..] == "-7";
      assert "-7"[1..] == "7";
      assert "7"[1..] == "";
    }
    assert "57"[..1] == "5";
    assert DecimalValue("5") == 5;
    assert DecimalValue("57") == 57;
    assert ParseInt("5-7") == Some(57);
  }
}
