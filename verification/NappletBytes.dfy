/** Base64 for the native bridge: the codec cut into slices, src/platform/napplet-bytes.ts. */
module NappletBytes {
  import opened Base64
  import opened Wrappers

  const DECODE_SLICE := 65536
  const ENCODE_SLICE := 49152

  datatype Outcome = Decoded(bytes: seq<byte>) | BadChunk | OutOfRange

  function Zeros(n: nat): (z: seq<byte>)
    ensures |z| == n && forall i :: 0 <= i < n ==> z[i] == 0
  {
    seq(n, _ => 0)
  }

  /** What new Uint8Array makes of length / 4 * 3 - padding: fractions truncate toward zero. */
  function ResultLength(value: string): nat {
    if |value| * 3 < 4 * Padding(value) then 0 else (|value| * 3 - 4 * Padding(value)) / 4
  }

  function JoinStrings(chunks: seq<string>): string {
    if chunks == [] then "" else JoinStrings(chunks[..|chunks| - 1]) + chunks[|chunks| - 1]
  }

  /** Decoding slice by slice, whatever the slices contain. */
  function ChunkedDecode(value: string): Option<seq<byte>>
    decreases |value|
  {
    if |value| <= DECODE_SLICE then Decode(value)
    else Join(Decode(value[..DECODE_SLICE]), ChunkedDecode(value[DECODE_SLICE..]))
  }

  /** No slice before the last ends in padding. */
  predicate Clean(value: string) {
    forall i :: 0 <= i < |value| - 1 && (i + 1) % DECODE_SLICE == 0 ==> value[i] != '='
  }

  lemma CleanSplit(value: string)
    requires |value| > DECODE_SLICE
    ensures Clean(value) <==> value[DECODE_SLICE - 1] != '=' && Clean(value[DECODE_SLICE..])
  {
    var rest := value[DECODE_SLICE..];
    if value[DECODE_SLICE - 1] != '=' && Clean(rest) {
      forall i | 0 <= i < |value| - 1 && (i + 1) % DECODE_SLICE == 0 ensures value[i] != '=' {
        if i >= DECODE_SLICE { assert rest[i - DECODE_SLICE] != '='; }
      }
    }
    if Clean(value) {
      forall i | 0 <= i < |rest| - 1 && (i + 1) % DECODE_SLICE == 0 ensures rest[i] != '=' {
        assert rest[i] == value[i + DECODE_SLICE];
      }
    }
  }

  /** The one-shot decoder is the sliced one, less the strings with padding before a slice end. */
  lemma {:induction false} DecodeIsCleanChunkedDecode(value: string)
    ensures Decode(value) == if Clean(value) then ChunkedDecode(value) else None
    decreases |value|
  {
    if |value| > DECODE_SLICE {
      var front, rest := value[..DECODE_SLICE], value[DECODE_SLICE..];
      assert value == front + rest;
      DecodeConcat(front, rest);
      CleanSplit(value);
      DecodeIsCleanChunkedDecode(rest);
    }
  }

  lemma PaddingOfTail(value: string, offset: nat)
    requires offset + 2 <= |value|
    ensures Padding(value[offset..]) == Padding(value)
  {}

  lemma LengthInQuarters(s: string)
    requires Decode(s).Some?
    ensures |s| % 4 == 0 && 4 * |Decode(s).value| == 3 * |s| - 4 * Padding(s)
  {
    DecodedLength(s);
  }

  lemma SliceQuarters(rest: nat)
    requires rest % 4 == 0
    ensures (DECODE_SLICE + rest) % 4 == 0
  {}

  lemma PaddingIsEquals(s: string)
    requires s != ""
    ensures Padding(s) == 0 <==> s[|s| - 1] != '='
  {}

  lemma {:induction false} ChunkedLength(value: string, bytes: seq<byte>)
    requires ChunkedDecode(value) == Some(bytes)
    ensures |value| % 4 == 0 && 4 * |bytes| <= 3 * |value| - 4 * Padding(value)
    ensures 4 * |bytes| == 3 * |value| - 4 * Padding(value) <==> Clean(value)
    decreases |value|
  {
    if |value| <= DECODE_SLICE {
      LengthInQuarters(value);
    } else {
      var front, rest := value[..DECODE_SLICE], value[DECODE_SLICE..];
      var a, b := Decode(front).value, ChunkedDecode(rest).value;
      LengthInQuarters(front);
      PaddingIsEquals(front);
      ChunkedLength(rest, b);
      SliceQuarters(|rest|);
      CleanSplit(value);
      assert Padding(rest) == Padding(value) by { PaddingOfTail(value, DECODE_SLICE); }
      assert |bytes| == |a| + |b| && |value| == DECODE_SLICE + |rest|;
    }
  }

  /** The allocated length always has room, and is exact just when no inner slice is padded. */
  lemma ResultLengthIsExact(value: string)
    requires ChunkedDecode(value).Some?
    ensures |value| % 4 == 0 && |ChunkedDecode(value).value| <= ResultLength(value)
    ensures |ChunkedDecode(value).value| == ResultLength(value) <==> Clean(value)
  {
    ChunkedLength(value, ChunkedDecode(value).value);
  }

  /** Decoding inverts encoding through the slices too. */
  lemma NappletRoundTrip(bytes: seq<byte>)
    ensures ChunkedDecode(Encode(bytes)) == Some(bytes) && ResultLength(Encode(bytes)) == |bytes|
  {
    DecodeEncode(bytes);
    DecodeIsCleanChunkedDecode(Encode(bytes));
    ResultLengthIsExact(Encode(bytes));
  }

  /** A padded slice before the last is accepted, although no encoder writes it and the one-shot
      decoder refuses it; the bytes it lacks are left as zeros at the end of the result. */
  lemma PaddedSliceIsAccepted(front: seq<byte>, rest: seq<byte>)
    requires |front| in {ENCODE_SLICE - 2, ENCODE_SLICE - 1} && 0 < |rest| <= ENCODE_SLICE
    ensures var value := Encode(front) + Encode(rest);
            ChunkedDecode(value) == Some(front + rest) && Decode(value).None? && |front + rest| < ResultLength(value)
  {
    EncodedSlice(front);
    EncodedSlice(rest);
    LengthInQuarters(Encode(front));
    PaddingIsEquals(Encode(front));
    PaddedSlice(Encode(front), Encode(rest));
    ResultLengthIsExact(Encode(front) + Encode(rest));
  }

  lemma EncodedSlice(bytes: seq<byte>)
    requires 0 < |bytes| <= ENCODE_SLICE
    ensures 0 < |Encode(bytes)| <= DECODE_SLICE && Decode(Encode(bytes)) == Some(bytes)
    ensures |bytes| >= ENCODE_SLICE - 2 ==> |Encode(bytes)| == DECODE_SLICE
  {
    DecodeEncode(bytes);
    EncodedLength(bytes);
    SliceLength(|bytes|, |Encode(bytes)|);
  }

  lemma SliceLength(n: nat, length: nat)
    requires 0 < n <= ENCODE_SLICE && length == (n + 2) / 3 * 4
    ensures 0 < length <= DECODE_SLICE
    ensures n >= ENCODE_SLICE - 2 ==> length == DECODE_SLICE
  {
    var groups := (n + 2) / 3;
    assert 3 * groups <= n + 2 < 3 * groups + 3;
  }

  lemma PaddedSlice(front: string, rest: string)
    requires |front| == DECODE_SLICE && front[DECODE_SLICE - 1] == '=' && 0 < |rest| <= DECODE_SLICE
    ensures ChunkedDecode(front + rest) == Join(Decode(front), Decode(rest))
    ensures !Clean(front + rest) && Decode(front + rest).None?
  {
    var value := front + rest;
    assert value[..DECODE_SLICE] == front && value[DECODE_SLICE..] == rest;
    assert value[DECODE_SLICE - 1] == '=';
    DecodeIsCleanChunkedDecode(value);
  }

  /** Where slice(offset, offset + size) ends. */
  function End<T>(value: seq<T>, offset: nat, size: nat): (end: nat)
    requires offset < |value|
    ensures offset <= end <= |value|
  {
    if offset + size < |value| then offset + size else |value|
  }

  function Rest(value: string, offset: nat): string {
    if offset <= |value| then value[offset..] else ""
  }

  lemma JoinNothing(done: seq<byte>)
    ensures Join(Some(done), Some([])) == Some(done)
  {
    assert done + [] == done;
  }

  lemma NothingJoined(rest: Option<seq<byte>>)
    ensures Join(Some([]), rest) == rest
  {
    if rest.Some? { assert [] + rest.value == rest.value; }
  }

  lemma NextSlice(value: string, offset: nat, done: seq<byte>)
    requires offset < |value|
    requires ChunkedDecode(value) == Join(Some(done), ChunkedDecode(value[offset..]))
    ensures var chunk := Decode(value[offset..End(value, offset, DECODE_SLICE)]);
            ChunkedDecode(value) == if chunk.None? then None
            else Join(Some(done + chunk.value), ChunkedDecode(Rest(value, offset + DECODE_SLICE)))
  {
    var rest := value[offset..];
    if |rest| <= DECODE_SLICE {
      assert value[offset..|value|] == rest;
      if Decode(rest).Some? { JoinNothing(done + Decode(rest).value); }
    } else {
      var end := offset + DECODE_SLICE;
      assert value[offset..end] == rest[..DECODE_SLICE] && value[end..] == rest[DECODE_SLICE..];
      JoinAssociative(Some(done), Decode(rest[..DECODE_SLICE]), ChunkedDecode(rest[DECODE_SLICE..]));
    }
  }

  lemma Slices(slices: nat)
    ensures DECODE_SLICE * slices % 4 == 0
  {}

  lemma SliceFits(value: string, slices: nat, chunk: string, position: nat)
    requires DECODE_SLICE * slices < |value| && position <= ENCODE_SLICE * slices
    requires chunk == value[DECODE_SLICE * slices..End(value, DECODE_SLICE * slices, DECODE_SLICE)]
    requires Decode(chunk).Some?
    ensures DECODE_SLICE * (slices + 1) < |value| ==> position + |Decode(chunk).value| <= ENCODE_SLICE * (slices + 1)
    ensures |value| % 4 == 0 ==> position + |Decode(chunk).value| <= ResultLength(value)
  {
    LengthInQuarters(chunk);
    if |value| % 4 == 0 && DECODE_SLICE * (slices + 1) >= |value| {
      assert |chunk| == |value| - DECODE_SLICE * slices;
      Slices(slices);
      PaddingOfTail(value, DECODE_SLICE * slices);
    }
  }

  lemma NoTail(value: string)
    requires Decode(value).Some?
    ensures ChunkedDecode(value) == Decode(value) && |Decode(value).value| == ResultLength(value)
    ensures Decode(value).value + Zeros(0) == Decode(value).value
  {
    DecodeIsCleanChunkedDecode(value);
    ResultLengthIsExact(value);
  }

  /** A well-formed string fills the buffer; a write past the end needs a string whose length is
      not a multiple of four. */
  method DecodeNappletBytes(value: string) returns (outcome: Outcome)
    ensures Decode(value).Some? ==> outcome == Decoded(Decode(value).value)
    ensures match ChunkedDecode(value)
            case Some(b) => |b| <= ResultLength(value) && outcome == Decoded(b + Zeros(ResultLength(value) - |b|))
            case None => !outcome.Decoded?
    ensures outcome.OutOfRange? ==> |value| % 4 != 0
  {
    if Decode(value).Some? { NoTail(value); }
    var result := new byte[ResultLength(value)](_ => 0);
    var position, offset := 0, 0;
    ghost var done: seq<byte>, slices: nat := [], 0;
    assert Rest(value, 0) == value;
    NothingJoined(ChunkedDecode(value));
    while offset < |value|
      invariant offset == DECODE_SLICE * slices && 0 <= position == |done| <= result.Length
      invariant offset < |value| ==> position <= ENCODE_SLICE * slices
      invariant ChunkedDecode(value) == Join(Some(done), ChunkedDecode(Rest(value, offset)))
      invariant result[..position] == done
      invariant forall i :: position <= i < result.Length ==> result[i] == 0
    {
      var chunk := Decode(value[offset..End(value, offset, DECODE_SLICE)]);
      NextSlice(value, offset, done);
      if chunk.None? { return BadChunk; }
      SliceFits(value, slices, value[offset..End(value, offset, DECODE_SLICE)], position);
      if position + |chunk.value| > result.Length {
        if ChunkedDecode(value).Some? { ResultLengthIsExact(value); }
        return OutOfRange;
      }
      Set(result, chunk.value, position);
      done, slices := done + chunk.value, slices + 1;
      position := position + |chunk.value|;
      offset := offset + DECODE_SLICE;
    }
    JoinNothing(done);
    assert result[..] == done + Zeros(result.Length - position);
    return Decoded(result[..]);
  }

  method Set(target: array<byte>, source: seq<byte>, position: nat)
    requires position + |source| <= target.Length
    modifies target
    ensures target[..position] == old(target[..position])
    ensures target[..position + |source|] == old(target[..position]) + source
    ensures forall i :: position + |source| <= i < target.Length ==> target[i] == old(target[i])
  {
    forall i | 0 <= i < |source| { target[position + i] := source[i]; }
  }

  /** The slices joined are the encoding in one piece. */
  method EncodeNappletBytes(value: seq<byte>) returns (encoded: string)
    ensures encoded == Encode(value)
  {
    var chunks: seq<string> := [];
    var offset := 0;
    ghost var slices: nat := 0;
    while offset < |value|
      invariant offset == ENCODE_SLICE * slices
      invariant JoinStrings(chunks) == Encode(value[..if offset < |value| then offset else |value|])
    {
      var chunk := Encode(value[offset..End(value, offset, ENCODE_SLICE)]);
      EncodeSlices(value, slices);
      assert (chunks + [chunk])[..|chunks|] == chunks;
      chunks := chunks + [chunk];
      offset := offset + ENCODE_SLICE;
      slices := slices + 1;
    }
    assert value[..|value|] == value;
    encoded := JoinStrings(chunks);
  }

  lemma EncodeSlices(value: seq<byte>, slices: nat)
    requires ENCODE_SLICE * slices < |value|
    ensures var offset := ENCODE_SLICE * slices; var end := End(value, offset, ENCODE_SLICE);
            Encode(value[..end]) == Encode(value[..offset]) + Encode(value[offset..end])
  {
    var offset := ENCODE_SLICE * slices;
    var end := End(value, offset, ENCODE_SLICE);
    assert value[..offset] + value[offset..end] == value[..end];
    Triples(slices);
    EncodeConcat(value[..offset], value[offset..end]);
  }

  lemma Triples(slices: nat)
    ensures ENCODE_SLICE * slices % 3 == 0
  {}
}
