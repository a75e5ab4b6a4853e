/**
 * Decimal text of natural numbers, as produced by Python's f-string formatting of an int,
 * and its inverse (the part of `int(...)` that `get_current_place` relies on), plus the "town:place"
 * label text used by the map generator and by the world's board.
 */
module Decimal {
  import opened Wrappers
  import opened Strings

  predicate IsDigit(c: char) { '0' <= c <= '9' }

  predicate AllDigits(s: string) { forall i :: 0 <= i < |s| ==> IsDigit(s[i]) }

  function DigitChar(d: nat): (c: char)
    requires d < 10
    ensures IsDigit(c) && c as int - '0' as int == d
  {
    ('0' as int + d) as char
  }

  /** The decimal text of `n`, most significant digit first, with no leading zero. */
  function NatToString(n: nat): (s: string)
    ensures |s| >= 1 && AllDigits(s)
    ensures (s[0] == '0') == (n == 0)
    decreases n
  {
    if n < 10 then [DigitChar(n)] else NatToString(n / 10) + [DigitChar(n % 10)]
  }

  /** The value of a string of digits read most significant first. */
  function DigitsValue(s: string): nat
    requires AllDigits(s)
  {
    if |s| == 0 then 0
    else DigitsValue(s[..|s| - 1]) * 10 + (s[|s| - 1] as int - '0' as int)
  }

  /** Python's `int(s)` restricted to plain unsigned decimal text: None where `int` would raise. */
  function ParseNat(s: string): (r: Option<nat>)
    ensures r.Some? <==> |s| > 0 && AllDigits(s)
  {
    if |s| > 0 && AllDigits(s) then Some(DigitsValue(s)) else None
  }

  lemma {:induction false} DigitsValueOfNatToString(n: nat)
    ensures DigitsValue(NatToString(n)) == n
    decreases n
  {
    if n >= 10 {
      var s := NatToString(n);
      assert s[..|s| - 1] == NatToString(n / 10);
      DigitsValueOfNatToString(n / 10);
    }
  }

  /** Formatting and parsing are inverse: `int(str(n)) == n`. */
  lemma ParseNatToString(n: nat)
    ensures ParseNat(NatToString(n)) == Some(n)
  {
    DigitsValueOfNatToString(n);
  }

  /** Distinct numbers have distinct decimal text. */
  lemma NatToStringInjective(m: nat, n: nat)
    requires NatToString(m) == NatToString(n)
    ensures m == n
  {
    ParseNatToString(m);
    ParseNatToString(n);
  }

  /** The label of place `place` of town `town`, `generate_map`'s f"{town}:{place}". */
  function LabelText(town: nat, place: nat): (s: string)
    ensures ':' in s
  {
    assert (NatToString(town) + ":" + NatToString(place))[|NatToString(town)|] == ':';
    NatToString(town) + ":" + NatToString(place)
  }

  /** The two numbers are recovered from a label: the town before the ':' and the place after it. */
  lemma LabelTextParts(town: nat, place: nat)
    ensures Before(LabelText(town, place), ':') == NatToString(town)
    ensures After(LabelText(town, place), ':') == NatToString(place)
    ensures ParseNat(Before(LabelText(town, place), ':')) == Some(town)
    ensures ParseNat(After(LabelText(town, place), ':')) == Some(place)
  {
    var t, p := NatToString(town), NatToString(place);
    assert ':' !in t;
    BeforeOfPrefix(t, p, ':');
    assert LabelText(town, place)[|t| + 1..] == p;
    ParseNatToString(town);
    ParseNatToString(place);
  }

  /** Different (town, place) pairs never share a label. */
  lemma LabelTextInjective(t1: nat, p1: nat, t2: nat, p2: nat)
    requires LabelText(t1, p1) == LabelText(t2, p2)
    ensures t1 == t2 && p1 == p2
  {
    LabelTextParts(t1, p1);
    LabelTextParts(t2, p2);
  }

  lemma OneOneText()
    ensures LabelText(1, 1) == "1:1"
  {
  }
}
