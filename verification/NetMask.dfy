/** Prefix length to dotted netmask (pkg/utils/os/common/network.go:56-72). */
module NetMask {
  import opened Numbers
  import opened Strings

  function Repeat(c: char, n: nat): (s: string)
    ensures |s| == n && forall i :: 0 <= i < n ==> s[i] == c
  {
    if n == 0 then "" else Repeat(c, n - 1) + [c]
  }

  function NonNegative(n: int): nat {
    if n > 0 then n else 0
  }

  /** The buffer the two loops fill. */
  function Masker(subnet: int): string {
    Repeat('1', NonNegative(subnet)) + Repeat('0', NonNegative(32 - subnet))
  }

  datatype Octets = Octets(a: nat, b: nat, c: nat, d: nat)

  function MaskOctets(subnet: int): Octets
  {
    MaskerLength(subnet);
    var masker := Masker(subnet);
    Octets(Binary(masker[..8]), Binary(masker[8..16]), Binary(masker[16..24]), Binary(masker[24..32]))
  }

  /** The slices of the buffer are in range for every argument, also negative or above 32. */
  lemma MaskerLength(subnet: int)
    ensures |Masker(subnet)| >= 32
  {
  }

  function Dotted(o: Octets): string {
    Decimal(o.a) + "." + Decimal(o.b) + "." + Decimal(o.c) + "." + Decimal(o.d)
  }

  /** The prefix length an argument stands for. */
  function PrefixLength(n: int): (k: nat)
    ensures k <= 32
  {
    if n < 0 then 0 else if n > 32 then 32 else n
  }

  /** Four numbers below 256 without leading zeros, separated by dots, which read most significant first are `k` ones
      followed by zeros. */
  predicate IsMask(mask: string, k: nat)
    requires k <= 32
  {
    var parts := Split(mask, '.');
    && |parts| == 4
    && (forall i :: 0 <= i < 4 ==> 0 <= Atoi(parts[i]) < 256 && parts[i] == Itoa(Atoi(parts[i])))
    && Atoi(parts[0]) * 0x100_0000 + Atoi(parts[1]) * 0x1_0000 + Atoi(parts[2]) * 0x100 + Atoi(parts[3])
       == 0x1_0000_0000 - Power2(32 - k)
  }

  method LenToSubNetMask(subnet: int) returns (mask: string)
    ensures mask == Dotted(MaskOctets(subnet))
    ensures IsMask(mask, if subnet < 0 then 0 else if subnet > 32 then 32 else subnet)
  {
    var buff := "";
    var i := 0;
    while i < subnet
      invariant 0 <= i <= NonNegative(subnet)
      invariant buff == Repeat('1', i)
    {
      buff := buff + "1";
      i := i + 1;
    }
    ghost var ones := buff;
    hide Dotted, IsMask;
    i := subnet;
    while i < 32
      invariant subnet <= i && NonNegative(32 - i) + (i - subnet) == (if subnet <= 32 then 32 - subnet else 0)
      invariant buff == ones + Repeat('0', i - subnet)
    {
      buff := buff + "0";
      assert ones + Repeat('0', i - subnet) + "0" == ones + (Repeat('0', i - subnet) + "0");
      i := i + 1;
    }
    var masker := buff;
    assert masker == Masker(subnet);
    MaskerLength(subnet);
    var a := Binary(masker[..8]);
    var b := Binary(masker[8..16]);
    var c := Binary(masker[16..24]);
    var d := Binary(masker[24..32]);
    mask := Decimal(a) + "." + Decimal(b) + "." + Decimal(c) + "." + Decimal(d);
    MaskText(subnet);
  }

  lemma {:induction false} BinaryOnes(k: nat)
    ensures Binary(Repeat('1', k)) == Power2(k) - 1
  {
    if k > 0 {
      BinaryOnes(k - 1);
    }
  }

  lemma {:induction false} BinaryZeros(k: nat)
    ensures Binary(Repeat('0', k)) == 0
  {
    if k > 0 {
      BinaryZeros(k - 1);
    }
  }

  lemma {:induction false} Power2Sum(a: nat, b: nat)
    ensures Power2(a + b) == Power2(a) * Power2(b)
  {
    if a > 0 {
      Power2Sum(a - 1, b);
      Regroup(Power2(a - 1), Power2(b));
    }
  }

  lemma Regroup(x: int, y: int)
    ensures 2 * (x * y) == (2 * x) * y
  {
  }

  lemma FirstBits(subnet: int)
    ensures Masker(subnet)[..32] == Repeat('1', PrefixLength(subnet)) + Repeat('0', 32 - PrefixLength(subnet))
  {
  }

  /** For every integer, the four octets are octets and, read as one 32-bit number, are 2^32 - 2^(32-k) for
      the clamped prefix length k: k ones, then zeros (section 3.1 of RFC 4632). */
  lemma MaskIsPrefix(subnet: int)
    ensures var o, k := MaskOctets(subnet), PrefixLength(subnet);
            && o.a < 256 && o.b < 256 && o.c < 256 && o.d < 256
            && o.a * 0x100_0000 + o.b * 0x1_0000 + o.c * 0x100 + o.d == 0x1_0000_0000 - Power2(32 - k)
  {
    var m, k := Masker(subnet), PrefixLength(subnet);
    hide Binary, Power2, Masker, PrefixLength;
    MaskerLength(subnet);
    FirstBits(subnet);
    Power2Of32();
    BinaryBelow(m[8..16]);
    BinaryBelow(m[16..24]);
    BinaryBelow(m[24..32]);
    assert m[..16] == m[..8] + m[8..16] && m[..24] == m[..16] + m[16..24] && m[..32] == m[..24] + m[24..32];
    BinaryConcat(m[..8], m[8..16]);
    BinaryConcat(m[..16], m[16..24]);
    BinaryConcat(m[..24], m[24..32]);
    OnesThenZeros(k);
  }

  lemma OnesThenZeros(k: nat)
    requires k <= 32
    ensures Binary(Repeat('1', k) + Repeat('0', 32 - k)) == 0x1_0000_0000 - Power2(32 - k)
  {
    hide Power2, Binary, Repeat;
    BinaryOnes(k);
    BinaryZeros(32 - k);
    BinaryConcat(Repeat('1', k), Repeat('0', 32 - k));
    Power2Sum(k, 32 - k);
    Power2Of32();
  }

  lemma Power2Of32()
    ensures Power2(8) == 256 && Power2(32) == 0x1_0000_0000
  {
    assert Power2(4) == 16;
    Power2Sum(4, 4);
    Power2Sum(8, 8);
    Power2Sum(16, 16);
  }

  // ----- The text -----

  lemma DottedParts(o: Octets)
    ensures Split(Dotted(o), '.') == [Decimal(o.a), Decimal(o.b), Decimal(o.c), Decimal(o.d)]
  {
    var a, b, c, d := Decimal(o.a), Decimal(o.b), Decimal(o.c), Decimal(o.d);
    hide Split, Decimal;
    SplitNone(d, '.');
    SplitFirst(c, '.', d);
    SplitFirst(b, '.', c + "." + d);
    SplitFirst(a, '.', b + "." + c + "." + d);
    assert b + "." + (c + "." + d) == b + "." + c + "." + d;
    assert a + "." + (b + "." + c + "." + d) == Dotted(o);
    assert c + ['.'] + d == c + "." + d;
  }

  lemma OctetText(n: nat)
    requires n < 256
    ensures Atoi(Decimal(n)) == n && Itoa(n) == Decimal(n)
  {
    AtoiItoa(n);
  }

  /** For every integer, the text is the mask of its clamped prefix length. */
  lemma MaskText(subnet: int)
    ensures IsMask(Dotted(MaskOctets(subnet)), if subnet < 0 then 0 else if subnet > 32 then 32 else subnet)
  {
    var o := MaskOctets(subnet);
    MaskIsPrefix(subnet);
    hide MaskOctets, Dotted, Split, Atoi, Itoa, Decimal, Power2;
    DottedParts(o);
    OctetText(o.a);
    OctetText(o.b);
    OctetText(o.c);
    OctetText(o.d);
  }
}
