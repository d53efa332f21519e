/** Decimal text: what `%d` and `%lu` print and `_wtoi` reads, which saturates at the ends of `int`. */
module Decimal {
  import opened Common

  const MINUS: unit := '-' as int
  const PLUS: unit := '+' as int
  const INT_MAX: int := 0x7FFF_FFFF
  const INT_MIN: int := -0x8000_0000

  /** A C `int`. */
  type int32 = x: int | INT_MIN <= x <= INT_MAX

  predicate IsDigit(c: wchar) {
    48 <= c <= 57
  }

  predicate IsSpace(c: wchar) {
    c == 32 || 9 <= c <= 13
  }

  function DigitValue(c: wchar): nat
    requires IsDigit(c)
  {
    c as int - 48
  }

  /** `%lu`. */
  function Digits(n: nat): (r: wstring)
    ensures r != [] && forall i :: 0 <= i < |r| ==> IsDigit(r[i])
  {
    if n < 10 then [48 + n] else Digits(n / 10) + [48 + n % 10]
  }

  /** `%d`. */
  function Signed(v: int): (r: wstring)
    ensures r != [] && (IsDigit(r[0]) || r[0] == MINUS)
  {
    if v < 0 then [MINUS] + Digits(-v) else Digits(v)
  }

  /** Value of a string of digits. */
  function Value(s: wstring): nat
    requires forall i :: 0 <= i < |s| ==> IsDigit(s[i])
  {
    if s == [] then 0 else Value(s[..|s| - 1]) * 10 + DigitValue(s[|s| - 1])
  }

  /** How many digits `s` starts with. */
  function DigitRun(s: wstring): (n: nat)
    ensures n <= |s| && forall i :: 0 <= i < n ==> IsDigit(s[i])
  {
    if s == [] || !IsDigit(s[0]) then 0 else 1 + DigitRun(s[1..])
  }

  function SkipSpace(s: wstring): (r: wstring)
    ensures |r| <= |s|
  {
    if s != [] && IsSpace(s[0]) then SkipSpace(s[1..]) else s
  }

  function Clamp(v: int): int32 {
    Max(INT_MIN, Min(INT_MAX, v))
  }

  /** `_wtoi`. */
  function WToI(s: wstring): int32
  {
    var t := SkipSpace(s);
    if At(t, 0) == MINUS then Clamp(-(Leading(t[1..]) as int))
    else if At(t, 0) == PLUS then Clamp(Leading(t[1..]))
    else Clamp(Leading(t))
  }

  /** The number at the start of `s`, 0 if there is none. */
  function Leading(s: wstring): nat {
    Value(s[..DigitRun(s)])
  }

  lemma {:induction false} ValueOfDigits(n: nat)
    ensures Value(Digits(n)) == n
  {
    if n >= 10 {
      ValueOfDigits(n / 10);
      assert Digits(n)[..|Digits(n)| - 1] == Digits(n / 10);
    }
  }

  /** Text that ends a number. */
  predicate Ends(rest: wstring) {
    rest == [] || !IsDigit(rest[0])
  }

  lemma {:induction false} RunOfDigits(d: wstring, rest: wstring)
    requires Ends(rest) && forall i :: 0 <= i < |d| ==> IsDigit(d[i])
    ensures DigitRun(d + rest) == |d|
  {
    if d == [] {
      assert d + rest == rest;
    } else {
      RunOfDigits(d[1..], rest);
      assert (d + rest)[1..] == d[1..] + rest;
    }
  }

  lemma LeadingDigits(n: nat, rest: wstring)
    requires Ends(rest)
    ensures Leading(Digits(n) + rest) == n
  {
    var d := Digits(n);
    RunOfDigits(d, rest);
    assert (d + rest)[..|d|] == d;
    ValueOfDigits(n);
  }

  /** A printed number followed by anything that is no digit reads back, up to saturation. */
  lemma SignedReadsBack(v: int, rest: wstring)
    requires Ends(rest)
    ensures WToI(Signed(v) + rest) == Clamp(v)
  {
    hide Digits, Leading;
    var s := Signed(v) + rest;
    if v < 0 {
      LeadingDigits(-v, rest);
      assert s[1..] == Digits(-v) + rest;
    } else {
      LeadingDigits(v, rest);
    }
  }

  /** An unsigned 32-bit number survives printing and `_wtoi` exactly below 2^31. */
  lemma UnsignedReadsBackIff(n: nat, rest: wstring)
    requires Ends(rest)
    ensures WToI(Digits(n) + rest) == n <==> n <= INT_MAX
    ensures WToI(Digits(n) + rest) >= 0
  {
    SignedReadsBack(n, rest);
  }

  function Pow10(k: nat): nat {
    if k == 0 then 1 else 10 * Pow10(k - 1)
  }

  lemma {:induction false} DigitsFit(n: nat, k: nat)
    requires n < Pow10(k) && k > 0
    ensures |Digits(n)| <= k
  {
    if n >= 10 {
      DigitsFit(n / 10, k - 1);
    }
  }

  predicate AreDigits(s: wstring) {
    forall i :: 0 <= i < |s| ==> IsDigit(s[i])
  }

  /** The digits with their weights, the highest first. */
  function Weighted(s: wstring): nat
    requires AreDigits(s)
  {
    if s == [] then 0 else DigitValue(s[0]) * Pow10(|s| - 1) + Weighted(s[1..])
  }

  lemma {:induction false} WeightedSnoc(s: wstring, c: unit)
    requires AreDigits(s) && IsDigit(c)
    ensures AreDigits(s + [c]) && Weighted(s + [c]) == Weighted(s) * 10 + DigitValue(c)
  {
    var longer := s + [c];
    if s == [] {
      assert longer[1..] == [] && Pow10(0) == 1;
    } else {
      WeightedSnoc(s[1..], c);
      assert longer[1..] == s[1..] + [c];
      TenTimes(DigitValue(s[0]), Pow10(|s| - 1), Weighted(s[1..]));
    }
  }

  lemma TenTimes(d: nat, p: nat, w: nat)
    ensures d * (10 * p) + w * 10 == (d * p + w) * 10
  {
  }

  /** `%lu` prints decimal places: the digits with their weights make up the number, and there is no leading zero. */
  lemma {:induction false} DigitsMean(n: nat)
    ensures AreDigits(Digits(n)) && Weighted(Digits(n)) == n && (Digits(n)[0] == 48 ==> n == 0 && |Digits(n)| == 1)
  {
    if n < 10 {
      var d: wstring := [48 + n];
      assert d[1..] == [] && Pow10(0) == 1;
    } else {
      DigitsMean(n / 10);
      WeightedSnoc(Digits(n / 10), 48 + n % 10);
    }
  }

  /** `_wtoi` passes over the blanks of the C locale and takes one sign. */
  lemma SpacedReadsBack(blanks: wstring, sign: wstring, n: nat, rest: wstring)
    requires forall i :: 0 <= i < |blanks| ==> blanks[i] == 32 || 9 <= blanks[i] <= 13
    requires Ends(rest) && (sign == [] || sign == [PLUS] || sign == [MINUS])
    ensures WToI(blanks + (sign + (Digits(n) + rest))) == Clamp(if sign == [MINUS] then -(n as int) else n)
  {
    var number := Digits(n) + rest;
    assert IsDigit(number[0]);
    LeadingDigits(n, rest);
    hide Digits, Leading, Clamp;
    var t := sign + number;
    assert sign != [] ==> t[1..] == number;
    assert sign == [] ==> t == number;
    SpaceSkipped(blanks, t);
    hide SkipSpace;
  }

  lemma {:induction false} SpaceSkipped(blanks: wstring, t: wstring)
    requires (forall i :: 0 <= i < |blanks| ==> IsSpace(blanks[i])) && t != [] && !IsSpace(t[0])
    ensures SkipSpace(blanks + t) == t
  {
    if blanks == [] {
      assert blanks + t == t;
    } else {
      SpaceSkipped(blanks[1..], t);
      assert (blanks + t)[1..] == blanks[1..] + t;
    }
  }
}
