/** The 48-byte record header of the Noise session layer, and the byte loops around it. */
module NoiseRecord {
  import opened Wrappers

  const HEADER_LENGTH := 48
  const TAG_LENGTH := 16
  const SESSION_ID_LENGTH := 32

  predicate ValidNoiseRecordType(kind: byte) {
    kind in {0x10, 0x11, 0x12, 0x13, 0x14, 0x20, 0x21, 0x7e, 0x7f} || 0x30 <= kind <= 0x36
  }

  /** The sixteen record types. */
  lemma RecordTypes()
    ensures (set kind: byte | ValidNoiseRecordType(kind)) ==
              {16, 17, 18, 19, 20, 32, 33, 48, 49, 50, 51, 52, 53, 54, 126, 127}
  {}

  // ----- big-endian numbers

  function Pow256(k: nat): (p: nat)
    ensures p > 0
  {
    if k == 0 then 1 else 256 * Pow256(k - 1)
  }

  /** The low k bytes of n, most significant first; the bits above them are dropped. */
  function BigEndian(n: nat, k: nat): (bytes: seq<byte>)
    ensures |bytes| == k
  {
    if k == 0 then [] else BigEndian(n / 256, k - 1) + [n % 256]
  }

  function FromBigEndian(bytes: seq<byte>): nat {
    if bytes == [] then 0 else FromBigEndian(bytes[..|bytes| - 1]) * 256 + bytes[|bytes| - 1]
  }

  lemma QuotientFits(n: nat, m: nat)
    requires n < 256 * m
    ensures n / 256 < m && n / 256 * 256 + n % 256 == n
  {}

  lemma FromBigEndianSnoc(front: seq<byte>, last: byte)
    ensures FromBigEndian(front + [last]) == FromBigEndian(front) * 256 + last
  {
    assert (front + [last])[..|front|] == front;
  }

  lemma {:induction false} BigEndianRoundTrip(n: nat, k: nat)
    requires n < Pow256(k)
    ensures FromBigEndian(BigEndian(n, k)) == n
  {
    if k > 0 {
      QuotientFits(n, Pow256(k - 1));
      BigEndianRoundTrip(n / 256, k - 1);
      FromBigEndianSnoc(BigEndian(n / 256, k - 1), n % 256);
    }
  }

  lemma {:induction false} FromBigEndianRoundTrip(bytes: seq<byte>)
    ensures FromBigEndian(bytes) < Pow256(|bytes|)
    ensures BigEndian(FromBigEndian(bytes), |bytes|) == bytes
  {
    if bytes != [] {
      var front, last := bytes[..|bytes| - 1], bytes[|bytes| - 1];
      FromBigEndianRoundTrip(front);
      var n := FromBigEndian(bytes);
      assert n / 256 == FromBigEndian(front) && n % 256 == last;
      assert bytes == front + [last];
    }
  }

  lemma WordSizes()
    ensures Pow256(4) == 0x1_0000_0000 && Pow256(8) == 0x1_0000_0000_0000_0000
  {
    assert Pow256(4) == 256 * (256 * (256 * (256 * Pow256(0))));
    assert Pow256(8) == 256 * (256 * (256 * (256 * Pow256(4))));
  }

  // ----- the header

  function Header(kind: byte, sessionId: seq<byte>, sequence: nat, length: nat): seq<byte> {
    [1, kind, 0, 0] + sessionId + BigEndian(sequence, 8) + BigEndian(length, 4)
  }

  /** The checks `open` makes on the first 48 bytes of a record. */
  predicate Accepts(header: seq<byte>, sessionId: seq<byte>, sequence: nat)
    requires |header| == HEADER_LENGTH
  {
    && header[0] == 1
    && ValidNoiseRecordType(header[1])
    && FromBigEndian(header[2..4]) == 0
    && header[4..36] == sessionId
    && FromBigEndian(header[36..44]) == sequence
  }

  function PayloadLength(header: seq<byte>): nat
    requires |header| == HEADER_LENGTH
  {
    FromBigEndian(header[44..48])
  }

  lemma HeaderFields(kind: byte, sessionId: seq<byte>, sequence: nat, length: nat)
    requires |sessionId| == SESSION_ID_LENGTH && sequence < Pow256(8) && length < Pow256(4)
    ensures var header := Header(kind, sessionId, sequence, length);
            && |header| == HEADER_LENGTH && header[0] == 1 && header[1] == kind
            && FromBigEndian(header[2..4]) == 0 && header[4..36] == sessionId
            && FromBigEndian(header[36..44]) == sequence && PayloadLength(header) == length
  {
    var header := Header(kind, sessionId, sequence, length);
    BigEndianRoundTrip(sequence, 8);
    BigEndianRoundTrip(length, 4);
    assert header[2..4] == [0, 0];
    assert [0, 0][..1] == [0] && [0][..0] == [];
    assert FromBigEndian([0, 0]) == FromBigEndian([0]) * 256 + 0;
    assert header[4..36] == sessionId;
    assert header[36..44] == BigEndian(sequence, 8);
    assert header[44..48] == BigEndian(length, 4);
  }

  /** Nothing but the bytes `encodeHeader` writes passes the checks of `open`. */
  lemma AcceptsExactlyEncoded(header: seq<byte>, sessionId: seq<byte>, sequence: nat)
    requires |header| == HEADER_LENGTH && |sessionId| == SESSION_ID_LENGTH && sequence < Pow256(8)
    ensures Accepts(header, sessionId, sequence) <==>
              ValidNoiseRecordType(header[1]) && header == Header(header[1], sessionId, sequence, PayloadLength(header))
  {
    FromBigEndianRoundTrip(header[44..48]);
    if Accepts(header, sessionId, sequence) {
      FromBigEndianRoundTrip(header[2..4]);
      FromBigEndianRoundTrip(header[36..44]);
      ZeroBytes();
      assert header == header[0..2] + header[2..4] + header[4..36] + header[36..44] + header[44..48];
      assert header[0..2] == [1, header[1]];
    } else if header == Header(header[1], sessionId, sequence, PayloadLength(header)) {
      HeaderFields(header[1], sessionId, sequence, PayloadLength(header));
    }
  }

  lemma ZeroBytes()
    ensures BigEndian(0, 2) == [0, 0]
  {
    assert BigEndian(0, 1) == BigEndian(0, 0) + [0] == [0];
    assert BigEndian(0, 2) == BigEndian(0, 1) + [0];
  }

  // ----- the loops over byte arrays

  /** `output.set(value, offset)`. */
  method SetBytes(output: array<byte>, value: seq<byte>, offset: nat)
    requires offset + |value| <= output.Length
    modifies output
    ensures output[..] == old(output[..offset]) + value + old(output[offset + |value|..])
  {
    for i := 0 to |value|
      invariant output[..offset] == old(output[..offset])
      invariant output[offset..offset + i] == value[..i]
      invariant output[offset + |value|..] == old(output[offset + |value|..])
    {
      output[offset + i] := value[i];
    }
    assert output[..] == output[..offset] + output[offset..offset + |value|] + output[offset + |value|..];
  }

  method EncodeHeader(kind: byte, sessionId: seq<byte>, sequence: nat, length: nat) returns (output: array<byte>)
    requires |sessionId| == SESSION_ID_LENGTH
    ensures fresh(output) && output[..] == Header(kind, sessionId, sequence, length)
  {
    output := new byte[HEADER_LENGTH](_ => 0);
    output[0] := 1;
    output[1] := kind;
    SetBytes(output, sessionId, 4);
    SetBytes(output, BigEndian(sequence, 8), 36);
    SetBytes(output, BigEndian(length, 4), 44);
  }

  function Concat(values: seq<seq<byte>>): seq<byte> {
    if values == [] then [] else values[0] + Concat(values[1..])
  }

  lemma {:induction false} ConcatSnoc(values: seq<seq<byte>>, value: seq<byte>)
    ensures Concat(values + [value]) == Concat(values) + value
  {
    if values != [] {
      assert (values + [value])[1..] == values[1..] + [value];
      ConcatSnoc(values[1..], value);
    }
  }

  lemma ConcatPair(a: seq<byte>, b: seq<byte>)
    ensures Concat([a, b]) == a + b
  {
    assert [a, b][1..] == [b] && [b][1..] == [];
    assert Concat([b]) == b + Concat([]);
  }

  method ConcatBytes(values: seq<seq<byte>>) returns (output: array<byte>)
    ensures fresh(output) && output[..] == Concat(values)
  {
    var total := 0;
    for i := 0 to |values|
      invariant total == |Concat(values[..i])|
    {
      assert values[..i + 1] == values[..i] + [values[i]];
      ConcatSnoc(values[..i], values[i]);
      total := total + |values[i]|;
    }
    assert values[..|values|] == values;
    output := new byte[total](_ => 0);
    var offset := 0;
    for i := 0 to |values|
      invariant offset == |Concat(values[..i])| <= output.Length == |Concat(values)|
      invariant output[..offset] == Concat(values[..i])
    {
      assert values[..i + 1] == values[..i] + [values[i]];
      ConcatSnoc(values[..i], values[i]);
      ConcatPrefix(values, i + 1);
      SetBytes(output, values[i], offset);
      offset := offset + |values[i]|;
    }
  }

  lemma {:induction false} ConcatPrefix(values: seq<seq<byte>>, i: nat)
    requires i <= |values|
    ensures |Concat(values[..i])| <= |Concat(values)|
  {
    if i > 0 {
      assert values[..i][1..] == values[1..][..i - 1];
      ConcatPrefix(values[1..], i - 1);
    }
  }

  // ----- comparison without an early exit

  /** Bitwise operations on the low k bits. */
  function Xor(a: nat, b: nat, k: nat): nat {
    if k == 0 then 0 else (if a % 2 == b % 2 then 0 else 1) + 2 * Xor(a / 2, b / 2, k - 1)
  }

  function Or(a: nat, b: nat, k: nat): nat {
    if k == 0 then 0 else (if a % 2 == 0 && b % 2 == 0 then 0 else 1) + 2 * Or(a / 2, b / 2, k - 1)
  }

  function Pow2(k: nat): nat {
    if k == 0 then 1 else 2 * Pow2(k - 1)
  }

  lemma {:induction false} XorIsZero(a: nat, b: nat, k: nat)
    requires a < Pow2(k) && b < Pow2(k)
    ensures Xor(a, b, k) == 0 <==> a == b
    ensures Xor(a, b, k) < Pow2(k)
  {
    if k > 0 { XorIsZero(a / 2, b / 2, k - 1); }
  }

  lemma {:induction false} OrIsZero(a: nat, b: nat, k: nat)
    requires a < Pow2(k) && b < Pow2(k)
    ensures Or(a, b, k) == 0 <==> a == 0 && b == 0
    ensures Or(a, b, k) < Pow2(k)
  {
    if k > 0 { OrIsZero(a / 2, b / 2, k - 1); }
  }

  lemma ByteBits()
    ensures Pow2(8) == 256
  {
    assert Pow2(4) == 2 * (2 * (2 * (2 * Pow2(0))));
    assert Pow2(8) == 2 * (2 * (2 * (2 * Pow2(4))));
  }

  method Equal(a: seq<byte>, b: seq<byte>) returns (same: bool)
    ensures same <==> a == b
  {
    if |a| != |b| { return false; }
    var difference: nat := 0;
    ByteBits();
    for index := 0 to |a|
      invariant difference < 256
      invariant difference == 0 <==> a[..index] == b[..index]
    {
      XorIsZero(a[index], b[index], 8);
      OrIsZero(difference, Xor(a[index], b[index], 8), 8);
      assert a[..index + 1] == a[..index] + [a[index]] && b[..index + 1] == b[..index] + [b[index]];
      difference := Or(difference, Xor(a[index], b[index], 8), 8);
    }
    assert a[..|a|] == a && b[..|b|] == b;
    same := difference == 0;
  }
}
