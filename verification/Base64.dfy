/** Base64 as section 4 of RFC 4648 defines it, with the strict decoding the library performs. */
module Base64 {
  import opened Wrappers

  type digit = x: int | 0 <= x < 64

  function Letter(d: digit): char {
    if d < 26 then 'A' + d as char
    else if d < 52 then 'a' + (d - 26) as char
    else if d < 62 then '0' + (d - 52) as char
    else if d == 62 then '+' else '/'
  }

  function Value(c: char): Option<digit> {
    if 'A' <= c <= 'Z' then Some((c - 'A') as int)
    else if 'a' <= c <= 'z' then Some((c - 'a') as int + 26)
    else if '0' <= c <= '9' then Some((c - '0') as int + 52)
    else if c == '+' then Some(62) else if c == '/' then Some(63) else None
  }

  lemma LetterValue(d: digit)
    ensures Value(Letter(d)) == Some(d) && Letter(d) != '='
  {}

  lemma ValueLetter(c: char)
    ensures Value(c).Some? ==> Letter(Value(c).value) == c
    ensures Value('=').None?
  {}

  /** One group: three bytes as four letters, or one or two bytes with padding. */
  function EncodeGroup(b: seq<byte>): string
    requires 1 <= |b| <= 3
  {
    var first := Letter(b[0] / 4);
    if |b| == 1 then [first, Letter(b[0] % 4 * 16), '=', '=']
    else
      var second := Letter(b[0] % 4 * 16 + b[1] / 16);
      if |b| == 2 then [first, second, Letter(b[1] % 16 * 4), '=']
      else [first, second, Letter(b[1] % 16 * 4 + b[2] / 64), Letter(b[2] % 64)]
  }

  function Encode(bytes: seq<byte>): string {
    if bytes == [] then ""
    else if |bytes| <= 3 then EncodeGroup(bytes)
    else EncodeGroup(bytes[..3]) + Encode(bytes[3..])
  }

  /** The inverse of a group; the bits a padded group does not use must be zero. */
  function DecodeGroup(q: string): Option<seq<byte>>
    requires |q| == 4
  {
    var v0, v1, v2, v3 := Value(q[0]), Value(q[1]), Value(q[2]), Value(q[3]);
    if v0.None? || v1.None? then None
    else if q[2] == '=' && q[3] == '=' then
      if v1.value % 16 == 0 then Some([v0.value * 4 + v1.value / 16]) else None
    else if v2.None? then None
    else if q[3] == '=' then
      if v2.value % 4 == 0 then Some([v0.value * 4 + v1.value / 16, v1.value % 16 * 16 + v2.value / 4]) else None
    else if v3.None? then None
    else Some([v0.value * 4 + v1.value / 16, v1.value % 16 * 16 + v2.value / 4, v2.value % 4 * 64 + v3.value])
  }

  function Join(a: Option<seq<byte>>, b: Option<seq<byte>>): Option<seq<byte>> {
    if a.None? || b.None? then None else Some(a.value + b.value)
  }

  /** Only the last group may be padded. */
  function Decode(s: string): Option<seq<byte>> {
    if s == "" then Some([])
    else if |s| < 4 then None
    else if |s| == 4 then DecodeGroup(s)
    else if s[3] == '=' then None
    else Join(DecodeGroup(s[..4]), Decode(s[4..]))
  }

  /** The six-bit digits of three bytes determine the bytes, and conversely. */
  lemma DigitsOfBytes(b0: byte, b1: byte, b2: byte)
    ensures b0 / 4 * 4 + (b0 % 4 * 16 + b1 / 16) / 16 == b0
    ensures (b0 % 4 * 16 + b1 / 16) % 16 * 16 + (b1 % 16 * 4 + b2 / 64) / 4 == b1
    ensures (b1 % 16 * 4 + b2 / 64) % 4 * 64 + b2 % 64 == b2
  {}

  lemma BytesOfDigits(v0: digit, v1: digit, v2: digit, v3: digit)
    ensures var b0, b1, b2 := v0 * 4 + v1 / 16, v1 % 16 * 16 + v2 / 4, v2 % 4 * 64 + v3;
            b0 / 4 == v0 && b0 % 4 * 16 + b1 / 16 == v1 && b1 % 16 * 4 + b2 / 64 == v2 && b2 % 64 == v3
  {}

  lemma OneByteRoundTrip(b: seq<byte>)
    requires |b| == 1
    ensures DecodeGroup(EncodeGroup(b)) == Some(b) && EncodeGroup(b)[3] == '='
  {
    PaddingHasNoValue();
    OneByte(b[0]);
    LetterValue(b[0] / 4);
    LetterValue(b[0] % 4 * 16);
    var v1 := b[0] % 4 * 16;
    assert v1 % 16 == 0 && [b[0] / 4 * 4 + v1 / 16] == b;
  }

  lemma TwoByteRoundTrip(b: seq<byte>)
    requires |b| == 2
    ensures DecodeGroup(EncodeGroup(b)) == Some(b) && EncodeGroup(b)[3] == '='
  {
    PaddingHasNoValue();
    DigitsOfBytes(b[0], b[1], 0);
    var v0, v1, v2 := b[0] / 4, b[0] % 4 * 16 + b[1] / 16, b[1] % 16 * 4;
    LetterValue(v0);
    LetterValue(v1);
    LetterValue(v2);
    assert v2 % 4 == 0 && [v0 * 4 + v1 / 16, v1 % 16 * 16 + v2 / 4] == b;
  }

  lemma FullGroup(v0: digit, v1: digit, v2: digit, v3: digit)
    ensures var q := [Letter(v0), Letter(v1), Letter(v2), Letter(v3)];
            DecodeGroup(q) == Some([v0 * 4 + v1 / 16, v1 % 16 * 16 + v2 / 4, v2 % 4 * 64 + v3]) && q[3] != '='
  {
    LetterValue(v0);
    LetterValue(v1);
    LetterValue(v2);
    LetterValue(v3);
  }

  lemma ThreeByteGroup(b: seq<byte>, v0: digit, v1: digit, v2: digit, v3: digit)
    requires |b| == 3 && v0 == b[0] / 4 && v1 == b[0] % 4 * 16 + b[1] / 16
    requires v2 == b[1] % 16 * 4 + b[2] / 64 && v3 == b[2] % 64
    ensures EncodeGroup(b) == [Letter(v0), Letter(v1), Letter(v2), Letter(v3)]
  {}

  lemma SameBytes(b: seq<byte>, b0: byte, b1: byte, b2: byte)
    requires |b| == 3 && b[0] == b0 && b[1] == b1 && b[2] == b2
    ensures [b0, b1, b2] == b
  {}

  lemma ThreeByteRoundTrip(b: seq<byte>)
    requires |b| == 3
    ensures DecodeGroup(EncodeGroup(b)) == Some(b) && EncodeGroup(b)[3] != '='
  {
    DigitsOfBytes(b[0], b[1], b[2]);
    var v0, v1, v2, v3 := b[0] / 4, b[0] % 4 * 16 + b[1] / 16, b[1] % 16 * 4 + b[2] / 64, b[2] % 64;
    FullGroup(v0, v1, v2, v3);
    ThreeByteGroup(b, v0, v1, v2, v3);
    SameBytes(b, v0 * 4 + v1 / 16, v1 % 16 * 16 + v2 / 4, v2 % 4 * 64 + v3);
  }

  lemma GroupRoundTrip(b: seq<byte>)
    requires 1 <= |b| <= 3
    ensures DecodeGroup(EncodeGroup(b)) == Some(b)
    ensures EncodeGroup(b)[3] == '=' <==> |b| < 3
  {
    if |b| == 1 {
      OneByteRoundTrip(b);
    } else if |b| == 2 {
      TwoByteRoundTrip(b);
    } else {
      ThreeByteRoundTrip(b);
    }
  }

  lemma OneByte(b: byte)
    ensures b % 4 * 16 % 16 == 0 && b / 4 * 4 + b % 4 * 16 / 16 == b
  {}

  lemma PaddingHasNoValue()
    ensures Value('=').None?
  {}

  lemma LettersOf(q: string)
    requires |q| == 4
    ensures forall i :: 0 <= i < 4 && Value(q[i]).Some? ==> Letter(Value(q[i]).value) == q[i] && q[i] != '='
  {
    ValueLetter(q[0]);
    ValueLetter(q[1]);
    ValueLetter(q[2]);
    ValueLetter(q[3]);
  }

  lemma GroupLength(q: string)
    requires |q| == 4 && DecodeGroup(q).Some?
    ensures |DecodeGroup(q).value| == 3 - (if q[3] != '=' then 0 else if q[2] != '=' then 1 else 2)
  {
    PaddingHasNoValue();
  }

  lemma FullGroupUnique(q: string)
    requires |q| == 4 && DecodeGroup(q).Some? && q[3] != '='
    ensures EncodeGroup(DecodeGroup(q).value) == q
  {
    LettersOf(q);
    PaddingHasNoValue();
    var v0, v1, v2, v3 := Value(q[0]).value, Value(q[1]).value, Value(q[2]).value, Value(q[3]).value;
    BytesOfDigits(v0, v1, v2, v3);
    var b := DecodeGroup(q).value;
    assert |b| == 3 && b[0] / 4 == v0 && b[2] % 64 == v3;
    assert b[0] % 4 * 16 + b[1] / 16 == v1 && b[1] % 16 * 4 + b[2] / 64 == v2;
    var e := EncodeGroup(b);
    assert e[0] == q[0] && e[1] == q[1] && e[2] == q[2] && e[3] == q[3];
  }

  lemma PaddedGroupUnique(q: string)
    requires |q| == 4 && DecodeGroup(q).Some? && q[3] == '='
    ensures EncodeGroup(DecodeGroup(q).value) == q
  {
    LettersOf(q);
    PaddingHasNoValue();
    var v2 := if q[2] == '=' then 0 else Value(q[2]).value;
    BytesOfDigits(Value(q[0]).value, Value(q[1]).value, v2, 0);
  }

  lemma GroupUnique(q: string)
    requires |q| == 4 && DecodeGroup(q).Some?
    ensures 1 <= |DecodeGroup(q).value| <= 3
    ensures |DecodeGroup(q).value| == 3 <==> q[3] != '='
    ensures EncodeGroup(DecodeGroup(q).value) == q
    ensures |DecodeGroup(q).value| == 3 - (if q[3] != '=' then 0 else if q[2] != '=' then 1 else 2)
  {
    GroupLength(q);
    if q[3] != '=' { FullGroupUnique(q); } else { PaddedGroupUnique(q); }
  }

  lemma EncodeLonger(head: seq<byte>, rest: seq<byte>)
    requires |head| == 3 && rest != []
    ensures Encode(head + rest) == EncodeGroup(head) + Encode(rest)
    ensures |Encode(rest)| > 0
  {
    assert (head + rest)[..3] == head && (head + rest)[3..] == rest;
  }

  lemma DecodeLonger(q: string, rest: string)
    requires |q| == 4 && rest != ""
    ensures Decode(q + rest) == if q[3] == '=' then None else Join(DecodeGroup(q), Decode(rest))
  {
    assert (q + rest)[..4] == q && (q + rest)[4..] == rest;
  }

  lemma {:induction false} EncodedLength(bytes: seq<byte>)
    ensures |Encode(bytes)| == (|bytes| + 2) / 3 * 4
  {
    if |bytes| > 3 {
      EncodedLength(bytes[3..]);
      assert (|bytes| + 2) / 3 == (|bytes[3..]| + 2) / 3 + 1;
    }
  }

  /** Decoding inverts encoding, for every byte sequence. */
  lemma {:induction false} DecodeEncode(bytes: seq<byte>)
    ensures Decode(Encode(bytes)) == Some(bytes)
  {
    if bytes == [] {
    } else if |bytes| <= 3 {
      GroupRoundTrip(bytes);
    } else {
      var head, rest := bytes[..3], bytes[3..];
      assert bytes == head + rest;
      GroupRoundTrip(head);
      DecodeEncode(rest);
      EncodeLonger(head, rest);
      DecodeLonger(EncodeGroup(head), Encode(rest));
    }
  }

  /** Nothing else decodes: a string is accepted exactly when it is the encoding of the result. */
  lemma {:induction false} EncodeDecode(s: string)
    ensures Decode(s).Some? ==> Encode(Decode(s).value) == s
  {
    if Decode(s).Some? && s != "" {
      if |s| == 4 {
        GroupUnique(s);
      } else {
        var q, tail := s[..4], s[4..];
        assert s == q + tail;
        EncodeDecode(tail);
        GroupUnique(q);
        DecodeLonger(q, tail);
        EncodeNonempty(Decode(tail).value);
        EncodeLonger(DecodeGroup(q).value, Decode(tail).value);
      }
    }
  }

  lemma EncodeNonempty(bytes: seq<byte>)
    ensures bytes == [] <==> Encode(bytes) == ""
  {}

  /** Splitting at a multiple of three bytes: no group is cut. */
  lemma {:induction false} EncodeConcat(a: seq<byte>, b: seq<byte>)
    requires |a| % 3 == 0
    ensures Encode(a + b) == Encode(a) + Encode(b)
  {
    if a == [] {
      assert a + b == b;
    } else if b == [] {
      assert a + b == a && Encode(a) + "" == Encode(a);
    } else if |a| == 3 {
      EncodeLonger(a, b);
    } else {
      var head, rest := a[..3], a[3..];
      assert a == head + rest;
      ConcatAssociative(head, rest, b);
      EncodeConcat(rest, b);
      EncodeLonger(head, rest + b);
      EncodeLonger(head, rest);
      ConcatAssociative(EncodeGroup(head), Encode(rest), Encode(b));
    }
  }

  /** Splitting at a group boundary: the front must not end in padding. */
  lemma {:induction false} DecodeConcat(a: string, b: string)
    requires |a| % 4 == 0 && a != "" && b != ""
    ensures Decode(a + b) == if a[|a| - 1] == '=' then None else Join(Decode(a), Decode(b))
  {
    var q, rest := a[..4], a[4..];
    assert a == q + rest && a + b == q + (rest + b);
    DecodeLonger(q, rest + b);
    if rest == "" {
      assert rest + b == b && a == q;
    } else {
      DecodeConcat(rest, b);
      DecodeLonger(q, rest);
      assert rest[|rest| - 1] == a[|a| - 1];
      JoinAssociative(DecodeGroup(q), Decode(rest), Decode(b));
    }
  }

  lemma JoinAssociative(a: Option<seq<byte>>, b: Option<seq<byte>>, c: Option<seq<byte>>)
    ensures Join(Join(a, b), c) == Join(a, Join(b, c))
  {
    if a.Some? && b.Some? && c.Some? { assert (a.value + b.value) + c.value == a.value + (b.value + c.value); }
  }

  /** The padding characters a string ends with, counted as the length computation counts them. */
  function Padding(s: string): nat {
    if |s| >= 2 && s[|s| - 1] == '=' && s[|s| - 2] == '=' then 2
    else if |s| >= 1 && s[|s| - 1] == '=' then 1 else 0
  }

  lemma FourMore(n: nat, m: nat)
    requires n % 4 == 0 && m == n + 4
    ensures m % 4 == 0 && m / 4 * 3 == n / 4 * 3 + 3
  {}

  lemma {:induction false} DecodedLength(s: string)
    requires Decode(s).Some?
    ensures |s| % 4 == 0 && |Decode(s).value| == |s| / 4 * 3 - Padding(s)
  {
    if s != "" {
      if |s| == 4 {
        GroupUnique(s);
      } else {
        var q, tail := s[..4], s[4..];
        DecodedLength(tail);
        GroupUnique(q);
        assert tail[|tail| - 1] == s[|s| - 1] && tail[|tail| - 2] == s[|s| - 2];
        FourMore(|tail|, |s|);
      }
    }
  }
}
