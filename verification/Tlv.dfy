/** The frame codec of the agent-server wire protocol (pkg/utils/message/protocol/tlvcodec.go):
    a fixed tag, a four-byte big-endian length, then the payload. */
module Tlv {

  type Byte = b: int | 0 <= b < 256

  const TAG_LENGTH := 26
  const HEADER_LENGTH := 30
  const TWO_31: int := 0x8000_0000
  const TWO_32: int := 0x1_0000_0000

  function Tag(): (tag: seq<Byte>)
    ensures |tag| == TAG_LENGTH
  {
    var text := "eat_keyboard_if_duplicated";
    seq(|text|, i requires 0 <= i < |text| => text[i] as int % 256)
  }

  /** The low `width` bytes of `n`, most significant first: with width 4, what writing `int32(n)` produces. */
  function BigEndian(n: nat, width: nat): (bytes: seq<Byte>)
    ensures |bytes| == width
  {
    if width == 0 then [] else BigEndian(n / 256, width - 1) + [n % 256]
  }

  function Unsigned(bytes: seq<Byte>): (n: nat) {
    if bytes == [] then 0 else Unsigned(bytes[..|bytes| - 1]) * 256 + bytes[|bytes| - 1] as int
  }

  function Power256(k: nat): (p: nat)
    ensures p > 0
  {
    if k == 0 then 1 else 256 * Power256(k - 1)
  }

  /** A bit pattern below 2^32 read as a signed 32-bit integer. */
  function Signed32(unsigned: nat): int {
    if unsigned < TWO_31 then unsigned else unsigned - TWO_32
  }

  /** Reading back the bytes of a number gives the number modulo 256^width. */
  lemma {:induction false} BigEndianRoundTrip(n: nat, width: nat)
    ensures Unsigned(BigEndian(n, width)) == n % Power256(width)
  {
    if width > 0 {
      var bytes, p := BigEndian(n, width), Power256(width - 1);
      BigEndianRoundTrip(n / 256, width - 1);
      ModuloByDigits(n, p);
    }
  }

  /** A byte string is the big-endian form of the number it reads as. */
  lemma {:induction false} UnsignedRoundTrip(bytes: seq<Byte>)
    ensures BigEndian(Unsigned(bytes), |bytes|) == bytes
    ensures Unsigned(bytes) < Power256(|bytes|)
  {
    if bytes != [] {
      var n := |bytes| - 1;
      UnsignedRoundTrip(bytes[..n]);
    }
  }

  lemma ModuloByDigits(n: nat, p: nat)
    requires p > 0
    ensures n % (256 * p) == (n / 256 % p) * 256 + n % 256
  {
    var q, low := n / 256 / p, (n / 256 % p) * 256 + n % 256;
    assert n == 256 * p * q + low;
    QuotientIsUnique(n, 256 * p, q, low);
  }

  lemma QuotientIsUnique(n: nat, d: nat, q: nat, r: nat)
    requires d > 0 && r < d && n == d * q + r
    ensures n % d == r
  {
    var k: int := n / d - q;
    assert d * k == r - n % d;
  }

  function Encode(payload: seq<Byte>): (frame: seq<Byte>)
    ensures |frame| == HEADER_LENGTH + |payload|
    ensures frame[HEADER_LENGTH..] == payload
  {
    Tag() + BigEndian(|payload|, 4) + payload
  }

  /** `NoFrame` stands for the return value `(0, nil)`, which the source gives both for a frame that
      has not fully arrived and for a wrong tag; `Panic` for slice bounds out of order. */
  datatype Decoded = NoFrame | Frame(consumed: nat, payload: seq<Byte>) | Panic

  function Decode(data: seq<Byte>): (r: Decoded)
    ensures r.Frame? ==> HEADER_LENGTH <= r.consumed <= |data| && r.payload == data[HEADER_LENGTH..r.consumed]
  {
    if |data| <= HEADER_LENGTH then NoFrame
    else if data[..TAG_LENGTH] != Tag() then NoFrame
    else
      var length := Signed32(Unsigned(data[TAG_LENGTH..HEADER_LENGTH]));
      if |data| >= length + HEADER_LENGTH then
        if length < 0 then Panic
        else Frame(HEADER_LENGTH + length, data[HEADER_LENGTH..HEADER_LENGTH + length])
      else NoFrame
  }

  /** A frame on the wire: the characters of the tag, the length in four bytes of which the first counts most, the
      payload. */
  lemma FrameLayout(payload: seq<Byte>)
    requires |payload| < TWO_32
    ensures var frame, tag := Encode(payload), "eat_keyboard_if_duplicated";
            && |tag| == 26 && |frame| == 30 + |payload| && frame[30..] == payload
            && (forall i :: 0 <= i < 26 ==> frame[i] == tag[i] as int)
            && frame[26] as int * 0x100_0000 + frame[27] as int * 0x1_0000 + frame[28] as int * 0x100 + frame[29] as int
               == |payload|
  {
    var frame, n := Encode(payload), |payload|;
    FourBytes(n);
    hide BigEndian;
    assert frame[26..30] == BigEndian(n, 4);
    assert forall i :: 0 <= i < 4 ==> frame[26 + i] == frame[26..30][i];
    assert forall i :: 0 <= i < 26 ==> frame[i] == Tag()[i];
  }

  lemma FourBytes(n: nat)
    requires n < TWO_32
    ensures var b := BigEndian(n, 4);
            b[0] as int * 0x100_0000 + b[1] as int * 0x1_0000 + b[2] as int * 0x100 + b[3] as int == n
  {
    var n1 := n / 256;
    var n2 := n1 / 256;
    var n3 := n2 / 256;
    assert BigEndian(n3, 1) == [n3 % 256];
    assert BigEndian(n2, 2) == BigEndian(n3, 1) + [n2 % 256];
    assert BigEndian(n1, 3) == BigEndian(n2, 2) + [n1 % 256];
    assert BigEndian(n, 4) == BigEndian(n1, 3) + [n % 256];
  }

  /** Decoding panics exactly on more than thirty bytes that start with the tag and go on with a byte of at least 128:
      the length they give is negative. */
  lemma PanicIff(data: seq<Byte>)
    ensures Decode(data) == Panic <==> |data| > 30 && data[..26] == Tag() && data[26] >= 128
  {
    if |data| > 30 {
      var bytes := data[26..30];
      FirstByteDecides(bytes);
      assert bytes[0] == data[26];
    }
  }

  lemma FirstByteDecides(bytes: seq<Byte>)
    requires |bytes| == 4
    ensures Unsigned(bytes) >= TWO_31 <==> bytes[0] >= 128
    ensures Unsigned(bytes) < TWO_32
  {
    Prefix(bytes, 0);
    Prefix(bytes, 1);
    Prefix(bytes, 2);
    assert bytes[..4] == bytes;
    Prefix(bytes, 3);
  }

  lemma Prefix(bytes: seq<Byte>, i: nat)
    requires i < |bytes|
    ensures Unsigned(bytes[..i + 1]) == Unsigned(bytes[..i]) * 256 + bytes[i] as int && Unsigned(bytes[..0]) == 0
  {
    assert bytes[..i + 1][..i] == bytes[..i];
  }

  /** Bytes that follow never change what a successful decode returned. */
  lemma DecodeIsMonotone(data: seq<Byte>, more: seq<Byte>)
    ensures Decode(data) != NoFrame ==> Decode(data + more) == Decode(data)
  {
    if Decode(data) != NoFrame {
      var all := data + more;
      assert all[TAG_LENGTH..HEADER_LENGTH] == data[TAG_LENGTH..HEADER_LENGTH];
      var length := Signed32(Unsigned(data[TAG_LENGTH..HEADER_LENGTH]));
    }
  }

  /** The payloads the codec carries faithfully. */
  predicate Sendable(payload: seq<Byte>) {
    0 < |payload| < TWO_31
  }

  lemma LengthRoundTrip(length: nat)
    ensures Unsigned(BigEndian(length, 4)) == length % TWO_32
  {
    BigEndianRoundTrip(length, 4);
  }

  /** What decoding makes of the header of an encoded payload, whatever follows it. */
  lemma HeaderOfEncoded(payload: seq<Byte>, data: seq<Byte>)
    requires HEADER_LENGTH <= |data| <= HEADER_LENGTH + |payload|
    requires data == Encode(payload)[..|data|]
    ensures data[..TAG_LENGTH] == Tag()
    ensures Unsigned(data[TAG_LENGTH..HEADER_LENGTH]) == |payload| % TWO_32
  {
    var frame := Encode(payload);
    assert data[TAG_LENGTH..HEADER_LENGTH] == frame[TAG_LENGTH..HEADER_LENGTH] == BigEndian(|payload|, 4);
    LengthRoundTrip(|payload|);
  }

  /** Decoding undoes encoding exactly on the non-empty payloads whose length fits a signed 32-bit
      integer: an empty payload is never recognised, a longer one has its length wrapped. */
  lemma RoundTripIff(payload: seq<Byte>)
    ensures Decode(Encode(payload)) == Frame(HEADER_LENGTH + |payload|, payload) <==> Sendable(payload)
  {
    var frame := Encode(payload);
    HeaderOfEncoded(payload, frame);
    if Sendable(payload) {
    } else if |payload| >= TWO_31 {
    }
  }

  /** The other direction: whatever decodes, on any bytes, is the encoding of the payload returned. */
  lemma DecodedWasEncoded(data: seq<Byte>)
    requires Decode(data).Frame?
    ensures data[..Decode(data).consumed] == Encode(Decode(data).payload)
    ensures |Decode(data).payload| < TWO_31
  {
    var bytes := data[TAG_LENGTH..HEADER_LENGTH];
    UnsignedRoundTrip(bytes);
    var n := HEADER_LENGTH + Unsigned(bytes);
  }

  /** The first frame of a longer stream decodes to its payload. */
  lemma DecodeFirst(payload: seq<Byte>, rest: seq<Byte>)
    requires Sendable(payload)
    ensures Decode(Encode(payload) + rest) == Frame(HEADER_LENGTH + |payload|, payload)
  {
    RoundTripIff(payload);
    DecodeIsMonotone(Encode(payload), rest);
  }

  /** A frame that has not fully arrived is left alone, even when its payload contains the tag. */
  lemma DecodeCut(payload: seq<Byte>, data: seq<Byte>)
    requires Sendable(payload)
    requires |data| < HEADER_LENGTH + |payload|
    requires data == Encode(payload)[..|data|]
    ensures Decode(data) == NoFrame
  {
    if |data| > HEADER_LENGTH {
      HeaderOfEncoded(payload, data);
    }
  }

  /** An empty payload is decoded only once a byte of the next frame has arrived. */
  lemma EmptyPayloadWaits(rest: seq<Byte>)
    ensures Decode(Encode([]) + rest) == if rest == [] then NoFrame else Frame(HEADER_LENGTH, [])
  {
    var frame := Encode([]);
    HeaderOfEncoded([], frame);
    if rest != [] {
      var all := frame + rest;
    }
  }
}
