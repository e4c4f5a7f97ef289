/** Numbers as text: strconv.Itoa, strconv.Atoi with its error results dropped, and binary digits. */
module Numbers {

  const MAX_INT := 0x7FFF_FFFF_FFFF_FFFF
  const MIN_INT := -0x8000_0000_0000_0000

  predicate IsDigit(c: char) {
    '0' <= c <= '9'
  }

  predicate AllDigits(s: string) {
    forall i :: 0 <= i < |s| ==> IsDigit(s[i])
  }

  function Digit(d: nat): (c: char)
    requires d < 10
    ensures IsDigit(c)
  {
    '0' + d as char
  }

  function Decimal(n: nat): (s: string)
    ensures s != "" && AllDigits(s)
  {
    if n < 10 then [Digit(n)] else Decimal(n / 10) + [Digit(n % 10)]
  }

  function Itoa(n: int): (s: string)
    ensures s != ""
    ensures forall i :: 0 <= i < |s| ==> IsDigit(s[i]) || s[i] == '-'
  {
    if n < 0 then "-" + Decimal(-n) else Decimal(n)
  }

  function Value(s: string): nat
    requires AllDigits(s)
  {
    if s == "" then 0 else Value(s[..|s| - 1]) * 10 + (s[|s| - 1] as int - '0' as int)
  }

  function Clamp(n: int): int {
    if n > MAX_INT then MAX_INT else if n < MIN_INT then MIN_INT else n
  }

  /** `n, _ := strconv.Atoi(s)`: 0 for what is not a number, the nearest bound for what does not fit. */
  function Atoi(s: string): int {
    var signed := s != "" && (s[0] == '-' || s[0] == '+');
    var digits := if signed then s[1..] else s;
    if digits == "" || !AllDigits(digits) then 0
    else if signed && s[0] == '-' then Clamp(-(Value(digits) as int))
    else Clamp(Value(digits))
  }

  lemma {:induction false} DecimalRoundTrip(n: nat)
    ensures Value(Decimal(n)) == n
  {
    if n < 10 {
    } else {
      var s := Decimal(n);
      DecimalRoundTrip(n / 10);
    }
  }

  /** The text of a number has no zero in front. */
  lemma {:induction false} DecimalPlain(n: nat)
    ensures n == 0 ==> Decimal(n) == "0"
    ensures n > 0 ==> Decimal(n)[0] != '0'
  {
    if n >= 10 {
      DecimalPlain(n / 10);
    }
  }

  /** Every integer is read back from its text, up to the bounds of a 64-bit integer. */
  lemma AtoiItoa(n: int)
    ensures Atoi(Itoa(n)) == Clamp(n)
    ensures -0x8000_0000_0000_0000 <= n <= 0x7FFF_FFFF_FFFF_FFFF ==> Clamp(n) == n
    ensures n < -0x8000_0000_0000_0000 ==> Clamp(n) == -0x8000_0000_0000_0000
    ensures n > 0x7FFF_FFFF_FFFF_FFFF ==> Clamp(n) == 0x7FFF_FFFF_FFFF_FFFF
  {
    if n < 0 {
      DecimalRoundTrip(-n);
      assert ("-" + Decimal(-n))[1..] == Decimal(-n);
    } else {
      DecimalRoundTrip(n);
    }
  }

  predicate Numeral(s: string) {
    s != "" && AllDigits(s)
  }

  /** What a text stands for: digits with or without a sign for their number, cut to the bounds of a 64-bit integer,
      and everything else for 0. */
  lemma AtoiCases(s: string)
    ensures Numeral(s) ==> Atoi(s) == Atoi("+" + s) == Clamp(Value(s)) && Atoi("-" + s) == Clamp(-(Value(s) as int))
    ensures !Numeral(s) && (s == "" || (s[0] != '+' && s[0] != '-') || !Numeral(s[1..])) ==> Atoi(s) == 0
  {
    hide Value, Clamp;
    var plus, minus := "+" + s, "-" + s;
    assert plus[0] == '+' && minus[0] == '-' && plus[1..] == s && minus[1..] == s;
  }

  /** A digit in front counts as often as its place says; zeros in front count for nothing. */
  lemma {:induction false} ValueOfDigits(c: char, s: string)
    requires IsDigit(c) && AllDigits(s)
    ensures Value([c] + s) == (c as int - '0' as int) * Power10(|s|) + Value(s)
  {
    if s == "" {
      assert ([c] + s)[..0] == "";
    } else {
      var n := |s| - 1;
      assert ([c] + s)[..|s|] == [c] + s[..n];
      ValueOfDigits(c, s[..n]);
      TenTimes(c as int - '0' as int, Power10(n), Value(s[..n]));
    }
  }

  lemma TenTimes(d: int, p: int, v: int)
    ensures (d * p + v) * 10 == d * (10 * p) + v * 10
  {
  }

  function Power10(k: nat): (p: nat)
    ensures p > 0
  {
    if k == 0 then 1 else 10 * Power10(k - 1)
  }

  // ----- Binary -----

  function Power2(k: nat): (p: nat)
    ensures p > 0
  {
    if k == 0 then 1 else 2 * Power2(k - 1)
  }

  /** `strconv.ParseUint(s, 2, 64)` on binary digits. */
  function Binary(s: string): nat {
    if s == "" then 0 else Binary(s[..|s| - 1]) * 2 + if s[|s| - 1] == '1' then 1 else 0
  }

  lemma {:induction false} BinaryConcat(a: string, b: string)
    ensures Binary(a + b) == Binary(a) * Power2(|b|) + Binary(b)
  {
    if b == "" {
      assert a + b == a;
    } else {
      var n := |b| - 1;
      assert (a + b)[..|a + b| - 1] == a + b[..n];
      BinaryConcat(a, b[..n]);
      assert (a + b)[|a + b| - 1] == b[n];
      assert Power2(|b|) == 2 * Power2(n);
      hide Power2;
      Doubling(Binary(a), Power2(n));
    }
  }

  lemma Doubling(x: int, p: int)
    ensures x * (2 * p) == (x * p) * 2
  {
  }

  lemma {:induction false} BinaryBelow(s: string)
    ensures Binary(s) < Power2(|s|)
  {
    if s != "" {
      BinaryBelow(s[..|s| - 1]);
    }
  }
}
