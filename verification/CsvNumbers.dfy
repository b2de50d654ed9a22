/** Decimal numbers as text: what printf writes, and what strtof, strtoul and lroundf make of it. */
module CsvNumbers {
  import opened Words

  // ----- digits

  predicate IsDigit(c: char) {
    '0' <= c <= '9'
  }

  predicate AllDigits(text: string) {
    forall i :: 0 <= i < |text| ==> IsDigit(text[i])
  }

  function Digit(n: nat): (c: char)
    requires n < 10
    ensures IsDigit(c) && DigitValue(c) == n
  {
    '0' + n as char
  }

  function DigitValue(c: char): (n: nat)
    requires IsDigit(c)
    ensures n < 10
  {
    (c - '0') as nat
  }

  function Digits(n: nat): (text: string)
    ensures text != "" && AllDigits(text)
  {
    if n < 10 then [Digit(n)] else Digits(n / 10) + [Digit(n % 10)]
  }

  function Value(text: string): nat
    requires AllDigits(text)
  {
    if text == "" then 0 else Value(text[..|text| - 1]) * 10 + DigitValue(text[|text| - 1])
  }

  lemma ValueOfMore(text: string, c: char)
    requires AllDigits(text) && IsDigit(c)
    ensures AllDigits(text + [c]) && Value(text + [c]) == Value(text) * 10 + DigitValue(c)
  {
    assert (text + [c])[..|text|] == text;
  }

  lemma {:induction false} DigitsHaveTheirValue(n: nat)
    ensures Value(Digits(n)) == n
  {
    if n < 10 {
      ValueOfMore("", Digit(n));
      assert "" + [Digit(n)] == [Digit(n)];
    } else {
      DigitsHaveTheirValue(n / 10);
      ValueOfMore(Digits(n / 10), Digit(n % 10));
    }
  }

  // ----- fixed-point numbers

  /** Without its last `places` decimal digits. */
  function Whole(n: nat, places: nat): nat {
    if places == 0 then n else Whole(n / 10, places - 1)
  }

  /** The last `places` decimal digits. */
  function LastDigits(n: nat, places: nat): (text: string)
    ensures AllDigits(text) && |text| == places
  {
    if places == 0 then "" else LastDigits(n / 10, places - 1) + [Digit(n % 10)]
  }

  function Absolute(x: int): nat {
    if x < 0 then -x else x
  }

  function Printed(n: nat, places: nat): string {
    Digits(Whole(n, places)) + if places == 0 then "" else "." + LastDigits(n, places)
  }

  /** printf of x / 10^places with `places` decimals. */
  function PrintFixed(x: int, places: nat): string {
    if x < 0 then "-" + Printed(-x, places) else Printed(x, places)
  }

  lemma LastDigitComesLast(front: string, n: nat, places: nat)
    requires places > 0
    ensures front + LastDigits(n, places) == front + LastDigits(n / 10, places - 1) + [Digit(n % 10)]
  {
    assert LastDigits(n, places) == LastDigits(n / 10, places - 1) + [Digit(n % 10)];
  }

  lemma {:induction false} AllDigitsHaveTheValue(n: nat, places: nat)
    ensures AllDigits(Digits(Whole(n, places)) + LastDigits(n, places))
    ensures Value(Digits(Whole(n, places)) + LastDigits(n, places)) == n
  {
    if places == 0 {
      DigitsHaveTheirValue(n);
      assert Digits(n) + "" == Digits(n);
    } else {
      AllDigitsHaveTheValue(n / 10, places - 1);
      var front := Digits(Whole(n, places));
      LastDigitComesLast(front, n, places);
      ValueOfMore(front + LastDigits(n / 10, places - 1), Digit(n % 10));
    }
  }

  function Pow10(k: nat): (p: nat)
    ensures p > 0
  {
    if k == 0 then 1 else 10 * Pow10(k - 1)
  }

  /** The number that n stands for when its last `places` digits follow the point. */
  function FixedValue(n: int, places: nat): real {
    n as real / Pow10(places) as real
  }

  // ----- parsing

  /** The position of the first c, or the length. */
  function Find(text: string, c: char): (i: nat)
    ensures i <= |text|
    ensures forall k :: 0 <= k < i ==> text[k] != c
    ensures i < |text| ==> text[i] == c
  {
    if text == "" || text[0] == c then 0 else 1 + Find(text[1..], c)
  }

  lemma {:induction false} FindAfter(front: string, c: char, back: string)
    requires c !in front
    ensures Find(front + [c] + back, c) == |front|
    ensures Find(front, c) == |front|
  {
    if front != "" {
      FindAfter(front[1..], c, back);
      assert (front + [c] + back)[1..] == front[1..] + [c] + back;
    }
  }

  predicate HasSign(text: string) {
    text != "" && (text[0] == '-' || text[0] == '+')
  }

  predicate IsNegative(text: string) {
    text != "" && text[0] == '-'
  }

  function Unsigned(text: string): string {
    if HasSign(text) then text[1..] else text
  }

  /** Digits, and optionally a point and more digits. */
  function ParseMagnitude(body: string): Option<real> {
    var point := Find(body, '.');
    var whole, fraction := body[..point], if point < |body| then body[point + 1..] else "";
    if !AllDigits(whole + fraction) || whole + fraction == "" then None
    else Some(FixedValue(Value(whole + fraction), |fraction|))
  }

  /** `parseCsvFloat` on decimal text with an optional sign. */
  function ParseFloat(text: string): Option<real> {
    var magnitude := ParseMagnitude(Unsigned(text));
    if magnitude.None? then None else Some(if IsNegative(text) then -magnitude.value else magnitude.value)
  }

  /** `parseCsvUnsigned` on digits with an optional sign: strtoul saturates, and negates modulo 2^32. */
  function ParseUnsigned(text: string, maximum: nat): Option<nat> {
    var body := Unsigned(text);
    if body == "" || !AllDigits(body) then None
    else
      var magnitude: int := Value(body);
      var parsed :=
        if magnitude >= TWO_32 then TWO_32 - 1 else if IsNegative(text) then Wrap32(-magnitude) else magnitude;
      if parsed > maximum then None else Some(parsed)
  }

  lemma SignIsNoDigit(text: string)
    requires AllDigits(text)
    ensures Unsigned(text) == text && !IsNegative(text) && Unsigned("-" + text) == text
    ensures '.' !in text && ',' !in text
  {
  }

  lemma PrintedMagnitude(n: nat, places: nat)
    ensures ParseMagnitude(Printed(n, places)) == Some(FixedValue(n, places))
  {
    var whole, fraction, body := Digits(Whole(n, places)), LastDigits(n, places), Printed(n, places);
    SignIsNoDigit(whole);
    AllDigitsHaveTheValue(n, places);
    if places == 0 {
      assert body == whole && fraction == "";
      FindAfter(whole, '.', "");
      assert body[..|whole|] == whole;
    } else {
      assert body == whole + ['.'] + fraction;
      FindAfter(whole, '.', fraction);
      assert body[..|whole|] == whole && body[|whole| + 1..] == fraction;
    }
  }

  lemma NegatedQuotient(x: real, p: real)
    requires p > 0.0
    ensures -x / p == -(x / p)
  {
  }

  lemma SignedValue(x: int, places: nat)
    ensures FixedValue(x, places) == if x < 0 then -FixedValue(Absolute(x), places) else FixedValue(Absolute(x), places)
  {
    NegatedQuotient(Absolute(x) as real, Pow10(places) as real);
  }

  lemma ParsedFromParts(text: string, body: string, magnitude: real)
    requires Unsigned(text) == body && ParseMagnitude(body) == Some(magnitude)
    ensures ParseFloat(text) == Some(if IsNegative(text) then -magnitude else magnitude)
  {
  }

  /** Parsing a printed number gives exactly that number. */
  lemma FixedRoundTrip(x: int, places: nat)
    ensures ParseFloat(PrintFixed(x, places)) == Some(FixedValue(x, places))
  {
    UnsignedOfPrinted(x, places);
    PrintedMagnitude(Absolute(x), places);
    ParsedFromParts(PrintFixed(x, places), Printed(Absolute(x), places), FixedValue(Absolute(x), places));
    SignedValue(x, places);
  }

  lemma UnsignedOfPrinted(x: int, places: nat)
    ensures Unsigned(PrintFixed(x, places)) == Printed(Absolute(x), places)
    ensures IsNegative(PrintFixed(x, places)) <==> x < 0
    ensures PrintFixed(x, places) != "" && ',' !in PrintFixed(x, places)
  {
    var body := Printed(Absolute(x), places);
    assert IsDigit(body[0]);
  }

  lemma UnsignedRoundTrip(n: nat, maximum: nat)
    requires n <= maximum && n < TWO_32
    ensures ParseUnsigned(Digits(n), maximum) == Some(n)
  {
    SignIsNoDigit(Digits(n));
    DigitsHaveTheirValue(n);
  }

  /** A printed negative number is no small unsigned number. */
  lemma NegativeIsNotUnsigned(n: nat, maximum: nat)
    requires 0 < n && maximum + n < TWO_32
    ensures ParseUnsigned("-" + Digits(n), maximum) == None
  {
    SignIsNoDigit(Digits(n));
    DigitsHaveTheirValue(n);
  }

  // ----- scaling

  /** `lroundf`: half away from zero. */
  function Lround(x: real): int {
    if x >= 0.0 then (x + 0.5).Floor else -((0.5 - x).Floor)
  }

  function Clamped(x: int, low: int, high: int): int {
    if x < low then low else if x > high then high else x
  }

  /** Multiplied by the scale 10^places. */
  function Times(value: real, places: nat): real {
    value * Pow10(places) as real
  }

  /** `scaledSigned`. */
  function ScaledSigned(value: real, places: nat): int {
    Clamped(Lround(Times(value, places)), -32768, 32767)
  }

  /** `scaledUnsigned`. */
  function ScaledUnsigned(value: real, places: nat): int {
    Clamped(Lround(Times(value, places)), 0, 65535)
  }

  lemma ProductOfQuotient(x: real, p: real)
    requires p > 0.0
    ensures x / p * p == x
  {
  }

  lemma LroundOfInteger(x: int)
    ensures Lround(x as real) == x
  {
  }

  lemma ScalingBack(x: int, places: nat)
    ensures Times(FixedValue(x, places), places) == x as real
    ensures Lround(Times(FixedValue(x, places), places)) == x
  {
    ProductOfQuotient(x as real, Pow10(places) as real);
    LroundOfInteger(x);
  }

  lemma ValueHasSign(x: int, places: nat)
    ensures FixedValue(x, places) < 0.0 <==> x < 0
  {
    ProductOfQuotient(x as real, Pow10(places) as real);
  }

  lemma WholeValue(x: int)
    ensures FixedValue(x, 0) == x as real
  {
  }

  /** Reading a printed number back and scaling it gives the printed integer. */
  lemma ReadBack(x: int, places: nat) returns (v: real)
    ensures ParseFloat(PrintFixed(x, places)) == Some(v)
    ensures Lround(Times(v, places)) == x
    ensures v < 0.0 <==> x < 0
    ensures places == 0 ==> v == x as real
  {
    v := FixedValue(x, places);
    FixedRoundTrip(x, places);
    ScalingBack(x, places);
    ValueHasSign(x, places);
    WholeValue(x);
  }
}
