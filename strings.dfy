/**
 * Text helpers used by the pipeline: ASCII lower-casing (Python's `str.lower`
 * restricted to ASCII), literal substring containment (what `str.contains`
 * does for a pattern without regular-expression metacharacters), and the
 * decimal parser behind `pd.to_numeric(..., errors='coerce')`.
 */
module Strings {
  import opened Wrappers

  function LowerChar(c: char): char
  {
    if 'A' <= c <= 'Z' then (c as int + 32) as char else c
  }

  /** Every ASCII capital becomes its small letter; every other character is kept. */
  function Lower(s: string): (r: string)
    ensures |r| == |s|
    ensures forall i :: 0 <= i < |r| ==> !('A' <= r[i] <= 'Z')
    ensures forall i :: 0 <= i < |r| ==>
      if 'A' <= s[i] <= 'Z' then r[i] as int == s[i] as int + 32 else r[i] == s[i]
  {
    seq(|s|, i requires 0 <= i < |s| => LowerChar(s[i]))
  }

  /** Lower-casing twice is the same as lower-casing once. */
  lemma LowerIdempotent(s: string)
    ensures Lower(Lower(s)) == Lower(s)
  {
    assert forall i :: 0 <= i < |s| ==> Lower(Lower(s))[i] == Lower(s)[i];
  }

  /** `p` occurs in `s` starting at index `i`. */
  predicate OccursAt(p: string, s: string, i: int)
  {
    0 <= i && i + |p| <= |s| && s[i..i + |p|] == p
  }

  /** Left-to-right scan for `p` in `s`. */
  function Contains(s: string, p: string): bool
    decreases |s|
  {
    if |p| > |s| then false
    else if s[..|p|] == p then true
    else Contains(s[1..], p)
  }

  /** The scan finds `p` exactly when `p` occurs somewhere in `s`. */
  lemma {:induction false} ContainsIff(s: string, p: string)
    ensures Contains(s, p) <==> exists i :: OccursAt(p, s, i)
    decreases |s|
  {
    if |p| > |s| {
      forall i | OccursAt(p, s, i) ensures false { }
    } else if s[..|p|] == p {
      assert OccursAt(p, s, 0);
    } else {
      ContainsIff(s[1..], p);
      if Contains(s[1..], p) {
        var i :| OccursAt(p, s[1..], i);
        assert s[1..][i..i + |p|] == s[i + 1..i + 1 + |p|];
        assert OccursAt(p, s, i + 1);
      } else {
        forall i | OccursAt(p, s, i) ensures false {
          if i != 0 {
            assert s[1..][i - 1..i - 1 + |p|] == s[i..i + |p|];
            assert OccursAt(p, s[1..], i - 1);
          }
        }
      }
    }
  }

  /** The empty pattern is contained in every string. */
  lemma ContainsEmpty(s: string)
    ensures Contains(s, "")
  {
    assert s[..0] == "";
  }

  predicate IsDigit(c: char)
  {
    '0' <= c <= '9'
  }

  predicate AllDigits(s: string)
  {
    forall i :: 0 <= i < |s| ==> IsDigit(s[i])
  }

  /** The value of a string of decimal digits, most significant first. */
  function DigitsValue(s: string): nat
    requires AllDigits(s)
  {
    if s == [] then 0
    else 10 * DigitsValue(s[..|s| - 1]) + (s[|s| - 1] as int - '0' as int)
  }

  function Pow10(k: nat): (p: nat)
    ensures p > 0
  {
    if k == 0 then 1 else 10 * Pow10(k - 1)
  }

  /** Index of the first `c` in `s`, or `|s|` when there is none. */
  function IndexOf(s: string, c: char): (k: nat)
    ensures k <= |s|
    ensures k < |s| ==> s[k] == c
    ensures forall i :: 0 <= i < k ==> s[i] != c
  {
    if s == [] then 0
    else if s[0] == c then 0
    else 1 + IndexOf(s[1..], c)
  }

  /** The value of digits after a point: "75" denotes 75/100. */
  function FractionValue(frac: string): real
    requires AllDigits(frac)
  {
    DigitsValue(frac) as real / Pow10(|frac|) as real
  }

  /** The value of a whole part and fraction digits: "12" and "75" denote 12 + 75/100. */
  function DecimalValue(whole: string, frac: string): real
    requires AllDigits(whole) && AllDigits(frac)
  {
    DigitsValue(whole) as real + FractionValue(frac)
  }

  /** Digits, optionally a point and more digits, with at least one digit. */
  function ParseUnsigned(s: string): Option<real>
  {
    var k := IndexOf(s, '.');
    var whole := s[..k];
    var frac := if k < |s| then s[k + 1..] else "";
    if AllDigits(whole) && AllDigits(frac) && |whole| + |frac| > 0 then
      Some(DecimalValue(whole, frac))
    else
      None
  }

  /**
   * A decimal number with an optional sign, as text; `None` for anything else
   * (such as "tbd"), which `to_numeric` with `errors='coerce'` turns into NaN.
   */
  function ParseDecimal(s: string): (r: Option<real>)
    ensures r.Some? ==> |s| > 0
  {
    if |s| > 0 && s[0] == '-' then
      match ParseUnsigned(s[1..])
      case Some(v) => Some(-v)
      case None => None
    else if |s| > 0 && s[0] == '+' then
      ParseUnsigned(s[1..])
    else
      ParseUnsigned(s)
  }

  function DigitChar(d: nat): char
    requires d < 10
  {
    ('0' as int + d) as char
  }

  /** The decimal text of a natural number, without leading zeros. */
  function NatText(n: nat): (s: string)
    ensures |s| > 0
  {
    if n < 10 then [DigitChar(n)] else NatText(n / 10) + [DigitChar(n % 10)]
  }

  lemma {:induction false} NatTextDigits(n: nat)
    ensures AllDigits(NatText(n)) && DigitsValue(NatText(n)) == n
  {
    if n >= 10 {
      NatTextDigits(n / 10);
      var s := NatText(n);
      assert s[..|s| - 1] == NatText(n / 10);
    }
  }

  /** The unsigned reader reads back the decimal text of every natural number. */
  lemma UnsignedNatText(n: nat)
    ensures ParseUnsigned(NatText(n)) == Some(n as real)
  {
    var s := NatText(n);
    NatTextDigits(n);
    var k := IndexOf(s, '.');
    assert k == |s|;
    assert s[..k] == s;
    assert Pow10(0) == 1 && DigitsValue("") == 0;
    assert DecimalValue(s, "") == n as real;
  }

  /** The parser reads back the decimal text of every natural number. */
  lemma ParseNatText(n: nat)
    ensures ParseDecimal(NatText(n)) == Some(n as real)
  {
    UnsignedNatText(n);
    NatTextDigits(n);
    assert IsDigit(NatText(n)[0]);
  }

  /** The first point of a digit string followed by a point and more text is right after the digits. */
  lemma IndexOfAfterDigits(t: string, rest: string)
    requires AllDigits(t)
    ensures IndexOf(t + "." + rest, '.') == |t|
  {
    var s := t + "." + rest;
    assert s[|t|] == '.';
  }

  /** A single digit character denotes its digit. */
  lemma DigitValue(d: nat)
    requires d < 10
    ensures AllDigits([DigitChar(d)]) && DigitsValue([DigitChar(d)]) == d
  {
    assert [DigitChar(d)][..0] == "";
  }

  /**
   * Any text whose first point sits at `k`, with only digits before and after
   * it and at least one digit overall, reads as the whole part plus the
   * fraction digits scaled by their count. A proof step for the round-trips below.
   */
  lemma ParseUnsignedAt(s: string, k: nat)
    requires k < |s| && IndexOf(s, '.') == k && |s| > 1
    requires AllDigits(s[..k]) && AllDigits(s[k + 1..])
    ensures ParseUnsigned(s) == Some(DecimalValue(s[..k], s[k + 1..]))
  {
  }

  /** Digits, a point and any non-empty run of digits read as the whole part plus the fraction, as "12.75" is 12 + 75/100. */
  lemma UnsignedFraction(t: string, f: string)
    requires AllDigits(t) && AllDigits(f) && |f| > 0
    ensures ParseUnsigned(t + "." + f) == Some(DecimalValue(t, f))
  {
    var s := t + "." + f;
    IndexOfAfterDigits(t, f);
    assert s[..|t|] == t;
    assert s[|t| + 1..] == f;
    ParseUnsignedAt(s, |t|);
  }

  /** Digits, a point and one more digit read as the whole part plus a tenth of that digit. */
  lemma UnsignedOneDecimal(t: string, d: nat)
    requires AllDigits(t) && d < 10
    ensures ParseUnsigned(t + "." + [DigitChar(d)]) == Some(DigitsValue(t) as real + d as real / 10.0)
  {
    var f := [DigitChar(d)];
    DigitValue(d);
    UnsignedFraction(t, f);
    assert FractionValue(f) == d as real / 10.0 by { assert Pow10(|f|) == 10; }
  }

  /** The parser reads back a whole number followed by one decimal place, as in "8.5". */
  lemma ParseOneDecimal(w: nat, d: nat)
    requires d < 10
    ensures ParseDecimal(NatText(w) + "." + [DigitChar(d)]) == Some(w as real + d as real / 10.0)
  {
    var t := NatText(w);
    NatTextDigits(w);
    UnsignedOneDecimal(t, d);
    var s := t + "." + [DigitChar(d)];
    assert s[0] == t[0] && IsDigit(t[0]);
  }

  /** The unsigned reader reads the text of `w`, a point and digits `f` as w + f/10^|f|. */
  lemma UnsignedNatFraction(w: nat, f: string)
    requires AllDigits(f) && |f| > 0
    ensures ParseUnsigned(NatText(w) + "." + f) == Some(w as real + FractionValue(f))
  {
    var t := NatText(w);
    NatTextDigits(w);
    UnsignedFraction(t, f);
    assert DecimalValue(t, f) == w as real + FractionValue(f);
  }

  /** The parser reads back a whole number followed by a point and any digits: "12.75" is 12 + 75/100. */
  lemma ParseFraction(w: nat, f: string)
    requires AllDigits(f) && |f| > 0
    ensures ParseDecimal(NatText(w) + "." + f) == Some(w as real + FractionValue(f))
  {
    UnsignedNatFraction(w, f);
    var t := NatText(w);
    assert IsDigit(t[0]) by { NatTextDigits(w); }
    assert (t + "." + f)[0] == t[0];
  }

  /** A leading minus negates what the rest reads as; a proof step for the signed round-trips. */
  lemma MinusSign(u: string, x: real)
    requires ParseUnsigned(u) == Some(x)
    ensures ParseDecimal("-" + u) == Some(-x)
  {
    assert ("-" + u)[1..] == u;
  }

  /** A leading plus is dropped; a proof step for the signed round-trips. */
  lemma PlusSign(u: string, x: real)
    requires ParseUnsigned(u) == Some(x)
    ensures ParseDecimal("+" + u) == Some(x)
  {
    assert ("+" + u)[1..] == u;
  }

  /** The parser reads a minus sign followed by the text of `n` as `-n`. */
  lemma ParseNegatedNat(n: nat)
    ensures ParseDecimal("-" + NatText(n)) == Some(-(n as real))
  {
    UnsignedNatText(n);
    MinusSign(NatText(n), n as real);
  }

  /** The parser reads a plus sign followed by the text of `n` as `n`. */
  lemma ParsePlusNat(n: nat)
    ensures ParseDecimal("+" + NatText(n)) == Some(n as real)
  {
    UnsignedNatText(n);
    PlusSign(NatText(n), n as real);
  }

  /** The parser reads a minus sign before "w.f" as the negated value: "-12.75" is -(12 + 75/100). */
  lemma ParseNegatedFraction(w: nat, f: string)
    requires AllDigits(f) && |f| > 0
    ensures ParseDecimal("-" + (NatText(w) + "." + f)) == Some(-(w as real + FractionValue(f)))
  {
    UnsignedNatFraction(w, f);
    MinusSign(NatText(w) + "." + f, w as real + FractionValue(f));
  }

  /** "8.5" reads as 8.5 and "tbd" does not read as a number. */
  lemma ParseExamples()
    ensures ParseDecimal("8.5") == Some(8.5)
    ensures ParseDecimal("tbd") == None
  {
    assert IndexOf("8.5", '.') == 1;
    assert "8.5"[..1] == "8" && "8.5"[2..] == "5";
    assert DigitsValue("8") == 8 by { assert "8"[..0] == ""; }
    assert DigitsValue("5") == 5 by { assert "5"[..0] == ""; }
    assert IndexOf("tbd", '.') == 3;
    assert "tbd"[..3] == "tbd";
    assert !IsDigit("tbd"[0]);
  }
}
