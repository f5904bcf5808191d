/** Decimal text of integers, as Rust's `to_string` writes it and `str::parse` reads it. */
module Decimal {
  import opened Bytes

  const U32_MAX := 0xFFFF_FFFF
  const USIZE_MAX := 0xFFFF_FFFF_FFFF_FFFF

  predicate IsDigit(b: byte) {
    48 <= b <= 57
  }

  predicate AllDigits(s: seq<byte>) {
    forall i :: 0 <= i < |s| ==> IsDigit(s[i])
  }

  /** Decimal digits of a natural number, most significant first, no leading zero. */
  function NatText(n: nat): (s: seq<byte>)
    ensures 0 < |s| && AllDigits(s)
  {
    if n < 10 then [48 + n] else NatText(n / 10) + [48 + n % 10]
  }

  /** Decimal text of an integer. */
  function IntText(v: int): (s: seq<byte>)
    ensures 0 < |s|
  {
    if v < 0 then [45] + NatText(-v) else NatText(v)
  }

  /** The number that a string of digits denotes. */
  function DigitsValue(s: seq<byte>): nat
    requires AllDigits(s)
  {
    if s == [] then 0 else DigitsValue(s[..|s| - 1]) * 10 + (s[|s| - 1] as int - 48)
  }

  /** `str::parse` for an unsigned type with largest value `max`; an optional `+` is accepted. */
  function ParseUnsigned(s: seq<byte>, max: nat): (r: Option<nat>)
    ensures r.Some? ==> r.value <= max
  {
    var digits := if s != [] && s[0] == 43 then s[1..] else s;
    if digits == [] || !AllDigits(digits) then None
    else if DigitsValue(digits) > max then None
    else Some(DigitsValue(digits))
  }

  function TenToThe(k: nat): nat {
    if k == 0 then 1 else 10 * TenToThe(k - 1)
  }

  /** Every digit times the power of ten of its place. */
  function PlaceValues(s: seq<byte>): int {
    if s == [] then 0 else (s[0] as int - 48) * TenToThe(|s| - 1) + PlaceValues(s[1..])
  }

  /** The last place counts once, all others ten times what they would without it. */
  lemma {:induction false} PlaceValuesSnoc(s: seq<byte>, d: byte)
    ensures PlaceValues(s + [d]) == 10 * PlaceValues(s) + (d as int - 48)
    decreases |s|
  {
    if s == [] {
      assert s + [d] == [d] && [d][1..] == [];
    } else {
      assert (s + [d])[1..] == s[1..] + [d];
      PlaceValuesSnoc(s[1..], d);
      var ten := TenToThe(|s| - 1);
      assert TenToThe(|s|) == 10 * ten;
      assert (s[0] as int - 48) * (10 * ten) == 10 * ((s[0] as int - 48) * ten);
    }
  }

  /** Digits are read as decimal places. */
  lemma {:induction false} DigitsAreDecimal(s: seq<byte>)
    requires AllDigits(s)
    ensures DigitsValue(s) == PlaceValues(s)
    decreases |s|
  {
    if s != [] {
      var init := s[..|s| - 1];
      DigitsAreDecimal(init);
      PlaceValuesSnoc(init, s[|s| - 1]);
      assert s == init + [s[|s| - 1]];
    }
  }

  lemma {:induction false} DigitsBelow(s: seq<byte>)
    requires AllDigits(s)
    ensures DigitsValue(s) < TenToThe(|s|)
    decreases |s|
  {
    if s != [] {
      DigitsBelow(s[..|s| - 1]);
    }
  }

  lemma {:induction false} NatTextValue(n: nat)
    ensures DigitsValue(NatText(n)) == n
  {
    if n < 10 {
      assert NatText(n)[..0] == [];
    } else {
      NatTextValue(n / 10);
      assert NatText(n)[..|NatText(n)| - 1] == NatText(n / 10);
    }
  }

  /** Reading what was written gives the number back. */
  lemma ParseNatText(n: nat, max: nat)
    ensures ParseUnsigned(NatText(n), max) == if n <= max then Some(n) else None
  {
    NatTextValue(n);
    assert IsDigit(NatText(n)[0]);
  }

  /** Octets 48 to 57, which read as decimal digits are `v`. */
  predicate Denotes(digits: seq<byte>, v: int) {
    digits != [] && (forall i :: 0 <= i < |digits| ==> 48 <= digits[i] <= 57) && v == PlaceValues(digits)
  }

  /** Decimal digits, optionally after a plus sign. */
  predicate Shows(text: seq<byte>, v: int) {
    Denotes(text, v) || (text != [] && text[0] == 43 && Denotes(text[1..], v))
  }

  lemma DigitsExactly(digits: seq<byte>)
    ensures if digits != [] && AllDigits(digits) then Denotes(digits, DigitsValue(digits)) else forall v :: !Denotes(digits, v)
  {
    if AllDigits(digits) {
      DigitsAreDecimal(digits);
    }
  }

  /** Reading gives the number that the text shows, if it shows one and it is not too large. */
  lemma ParseExactly(s: seq<byte>, max: nat)
    ensures match ParseUnsigned(s, max)
      case None => forall v :: Shows(s, v) ==> v > max
      case Some(n) => n <= max && Shows(s, n) && forall v :: Shows(s, v) ==> v == n
  {
    DigitsExactly(s);
    if s != [] {
      DigitsExactly(s[1..]);
      assert s[0] == 43 ==> !AllDigits(s);
    }
  }

  lemma ShownBelow(s: seq<byte>, v: int)
    requires Shows(s, v)
    ensures v < TenToThe(|s|)
  {
    var digits := if s[0] == 43 then s[1..] else s;
    assert AllDigits(digits);
    DigitsAreDecimal(digits);
    DigitsBelow(digits);
  }

  /** A number is written as decimal places, without a leading zero. */
  lemma {:induction false} NatTextDecimal(n: nat)
    ensures PlaceValues(NatText(n)) == n && (NatText(n)[0] == 48 ==> n == 0 && NatText(n) == [48])
  {
    NatTextValue(n);
    DigitsAreDecimal(NatText(n));
    if n >= 10 {
      NatTextDecimal(n / 10);
    }
  }

  lemma NatTextShort(n: nat)
    ensures |NatText(n)| <= n + 1
  {
  }

  /** A minus sign, octet 45, stands before the decimal places of a negative one, and nothing before the others. */
  lemma IntTextDecimal(v: int)
    ensures v >= 0 ==> PlaceValues(IntText(v)) == v && 48 <= IntText(v)[0] <= 57
    ensures v < 0 ==> IntText(v)[0] == 45 && PlaceValues(IntText(v)[1..]) == -v
  {
    NatTextDecimal(if v < 0 then -v else v);
    assert v < 0 ==> IntText(v)[1..] == NatText(-v);
    assert v >= 0 ==> IsDigit(NatText(v)[0]);
  }

  /** Different integers have different texts. */
  lemma IntTextInjective(v: int, w: int)
    requires IntText(v) == IntText(w)
    ensures v == w
  {
    assert IsDigit(NatText(if v < 0 then -v else v)[0]);
    assert IsDigit(NatText(if w < 0 then -w else w)[0]);
    if v < 0 {
      assert IntText(v)[1..] == NatText(-v) && IntText(w)[1..] == NatText(-w);
      NatTextValue(-v);
      NatTextValue(-w);
    } else {
      NatTextValue(v);
      NatTextValue(w);
    }
  }

  /** Lengths of short texts. */
  lemma NatTextLength(n: nat)
    ensures n < 10000 ==> |NatText(n)| <= 4
    ensures n >= 100 ==> |NatText(n)| >= 3
  {
    if n >= 10 {
      assert NatText(n) == NatText(n / 10) + [48 + n % 10];
      if n / 10 >= 10 {
        assert NatText(n / 10) == NatText(n / 10 / 10) + [48 + n / 10 % 10];
        if n / 10 / 10 >= 10 {
          assert NatText(n / 10 / 10) == NatText(n / 10 / 10 / 10) + [48 + n / 10 / 10 % 10];
        }
      }
    }
  }
}
