/** The string operations the pipeline relies on: lower-casing of labels,
    substring search, and the decimal rendering of non-negative integers that
    Python's f-strings and `str(int)` produce. */
module Text {

  /** Lower-casing of one character, restricted to the ASCII letters. */
  function LowerChar(c: char): char {
    if 'A' <= c <= 'Z' then (c as int - 'A' as int + 'a' as int) as char else c
  }

  predicate IsUpper(c: char) {
    'A' <= c <= 'Z'
  }

  /** Python's `str.lower()` on ASCII text: no upper-case letter is left, and
      every other character stays in place. */
  function Lower(s: string): (r: string)
    ensures |r| == |s|
    ensures forall i :: 0 <= i < |r| ==> !IsUpper(r[i])
    ensures forall i :: 0 <= i < |s| && !IsUpper(s[i]) ==> r[i] == s[i]
  {
    seq(|s|, i requires 0 <= i < |s| => LowerChar(s[i]))
  }

  /** Lower-casing twice is lower-casing once. */
  lemma LowerIdempotent(s: string)
    ensures Lower(Lower(s)) == Lower(s)
  {
    var l := Lower(s);
    assert forall i :: 0 <= i < |l| ==> Lower(l)[i] == l[i];
    assert Lower(l) == l;
  }

  /** Two strings that differ only in the case of their letters lower-case to
      the same string. */
  lemma LowerIgnoresCase(s: string, t: string)
    requires |s| == |t|
    requires forall i :: 0 <= i < |s| ==> LowerChar(s[i]) == LowerChar(t[i])
    ensures Lower(s) == Lower(t)
  {
  }

  /** `t` occurs in `s` starting at index `i`. */
  predicate OccursAt(s: string, t: string, i: int) {
    0 <= i && i + |t| <= |s| && s[i..i + |t|] == t
  }

  /** Python's `t in s` for strings, searched from the left. */
  predicate Contains(s: string, t: string)
    decreases |s|
  {
    |t| <= |s| && (s[..|t|] == t || Contains(s[1..], t))
  }

  /** The search agrees with the positional definition of a substring, in both
      directions. */
  lemma {:induction false} ContainsIff(s: string, t: string)
    ensures Contains(s, t) <==> exists i :: OccursAt(s, t, i)
    decreases |s|
  {
    if Contains(s, t) {
      if s[..|t|] == t {
        assert OccursAt(s, t, 0);
      } else {
        ContainsIff(s[1..], t);
        var i :| OccursAt(s[1..], t, i);
        assert s[1..][i..i + |t|] == s[i + 1..i + 1 + |t|];
        assert OccursAt(s, t, i + 1);
      }
    }
    if exists i :: OccursAt(s, t, i) {
      var i :| OccursAt(s, t, i);
      if i > 0 {
        assert s[1..][i - 1..i - 1 + |t|] == s[i..i + |t|];
        assert OccursAt(s[1..], t, i - 1);
        ContainsIff(s[1..], t);
      }
    }
  }

  /** A string always contains what was placed in its middle. */
  lemma ContainsMiddle(a: string, t: string, b: string)
    ensures Contains(a + t + b, t)
  {
    assert (a + t + b)[|a|..|a| + |t|] == t;
    assert OccursAt(a + t + b, t, |a|);
    ContainsIff(a + t + b, t);
  }

  predicate IsDigit(c: char) {
    '0' <= c <= '9'
  }

  function DigitChar(d: nat): (c: char)
    requires d < 10
    ensures IsDigit(c)
  {
    ('0' as int + d) as char
  }

  function DigitValue(c: char): nat {
    if IsDigit(c) then c as int - '0' as int else 0
  }

  /** Python's `str(n)` for a non-negative integer: its digits, most
      significant first, without leading zeros. */
  function Decimal(n: nat): (r: string)
    ensures |r| >= 1
    ensures forall i :: 0 <= i < |r| ==> IsDigit(r[i])
  {
    if n < 10 then [DigitChar(n)] else Decimal(n / 10) + [DigitChar(n % 10)]
  }

  /** Reads a string of decimal digits back as a number (`int(s)`). */
  function ParseDecimal(s: string): nat {
    if s == [] then 0 else ParseDecimal(s[..|s| - 1]) * 10 + DigitValue(s[|s| - 1])
  }

  /** Rendering a number and reading it back gives the number. */
  lemma {:induction false} ParseDecimalInverts(n: nat)
    ensures ParseDecimal(Decimal(n)) == n
  {
    var r := Decimal(n);
    if n >= 10 {
      assert r[..|r| - 1] == Decimal(n / 10);
      ParseDecimalInverts(n / 10);
    }
  }

  /** Distinct numbers render to distinct strings. */
  lemma DecimalInjective(m: nat, n: nat)
    ensures Decimal(m) == Decimal(n) ==> m == n
  {
    ParseDecimalInverts(m);
    ParseDecimalInverts(n);
  }
}
