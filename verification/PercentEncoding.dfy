/** Component encoding with UTF-8 and percent triplets, as encodeURIComponent and decodeURIComponent
    do it, and the rewriting toString puts on top. A Dafny char is a Unicode scalar value, so a
    string is a JavaScript string without lone surrogates. */
module PercentEncoding {
  import opened Wrappers

  type nibble = x: int | 0 <= x < 16

  predicate Alphanumeric(c: char) {
    'A' <= c <= 'Z' || 'a' <= c <= 'z' || '0' <= c <= '9'
  }

  /** What encodeURIComponent leaves alone. */
  predicate Unescaped(c: char) {
    Alphanumeric(c) || c in "-_.!~*'()"
  }

  predicate Mark(c: char) {
    c in "!'()~"
  }

  function Hex(d: nibble): char {
    if d < 10 then '0' + d as char else 'A' + (d - 10) as char
  }

  function HexValue(c: char): Option<nibble> {
    if '0' <= c <= '9' then Some((c - '0') as int)
    else if 'A' <= c <= 'F' then Some((c - 'A') as int + 10)
    else if 'a' <= c <= 'f' then Some((c - 'a') as int + 10) else None
  }

  function Triplet(b: byte): string {
    ['%', Hex(b / 16), Hex(b % 16)]
  }

  function Utf8(c: char): seq<byte> {
    var n := c as int;
    if n < 0x80 then [n]
    else if n < 0x800 then [0xC0 + n / 64, 0x80 + n % 64]
    else if n < 0x10000 then [0xE0 + n / 4096, 0x80 + n / 64 % 64, 0x80 + n % 64]
    else [0xF0 + n / 262144, 0x80 + n / 4096 % 64, 0x80 + n / 64 % 64, 0x80 + n % 64]
  }

  function Triplets(bytes: seq<byte>): string {
    if bytes == [] then "" else Triplet(bytes[0]) + Triplets(bytes[1..])
  }

  function EscapeChar(c: char): string {
    if Unescaped(c) then [c] else Triplets(Utf8(c))
  }

  function EncodeComponent(s: string): string {
    if s == "" then "" else EscapeChar(s[0]) + EncodeComponent(s[1..])
  }

  /** replace(/%20/g, '+'): literal search, left to right. */
  function ReplaceSpaces(s: string): string {
    if |s| < 3 then s
    else if s[0] == '%' && s[1] == '2' && s[2] == '0' then "+" + ReplaceSpaces(s[3..])
    else [s[0]] + ReplaceSpaces(s[1..])
  }

  /** replace(/[!'()~]/g, ...): the code of the character in two upper-case hexadecimal digits. */
  function ReplaceMarks(s: string): string {
    if s == "" then ""
    else (if Mark(s[0]) then Triplet(s[0] as int) else [s[0]]) + ReplaceMarks(s[1..])
  }

  function Encode(s: string): string {
    ReplaceMarks(ReplaceSpaces(EncodeComponent(s)))
  }

  // ----- the reference: section 5.2 of the WHATWG URL Standard, one character at a time

  function FormChar(c: char): string {
    if c == ' ' then "+"
    else if Alphanumeric(c) || c in "*-._" then [c]
    else Triplets(Utf8(c))
  }

  function FormEncode(s: string): string {
    if s == "" then "" else FormChar(s[0]) + FormEncode(s[1..])
  }

  /** A piece that can be copied before or rewritten on its own: any %20 in it starts and ends in it. */
  lemma ReplacePlain(c: char, rest: string)
    requires c != '%'
    ensures ReplaceSpaces([c] + rest) == [c] + ReplaceSpaces(rest)
  {
    assert ([c] + rest)[1..] == rest;
  }

  lemma ReplaceTriplet(b: byte, rest: string)
    ensures ReplaceSpaces(Triplet(b) + rest) == (if b == 0x20 then "+" else Triplet(b)) + ReplaceSpaces(rest)
  {
    var s := Triplet(b) + rest;
    var x, y := Hex(b / 16), Hex(b % 16);
    assert s[1..] == [x] + ([y] + rest) && s[3..] == rest;
    if b != 0x20 {
      ReplacePlain(y, rest);
      ReplacePlain(x, [y] + rest);
      assert s[0] == '%' && !(s[1] == '2' && s[2] == '0') by { HexRoundTrip(b / 16); HexRoundTrip(b % 16); }
      ThreeThen('%', x, y, ReplaceSpaces(rest));
    }
  }

  lemma ThreeThen(x: char, y: char, z: char, rest: string)
    ensures [x] + ([y] + ([z] + rest)) == [x, y, z] + rest
  {}

  lemma {:induction false} ReplaceTriplets(bytes: seq<byte>, rest: string)
    requires 0x20 !in bytes
    ensures ReplaceSpaces(Triplets(bytes) + rest) == Triplets(bytes) + ReplaceSpaces(rest)
  {
    if bytes == [] {
      assert "" + rest == rest && "" + ReplaceSpaces(rest) == ReplaceSpaces(rest);
    } else {
      var tail := Triplets(bytes[1..]);
      ReplaceTriplets(bytes[1..], rest);
      ReplaceTriplet(bytes[0], tail + rest);
      ConcatAssociative(Triplet(bytes[0]), tail, rest);
      ConcatAssociative(Triplet(bytes[0]), tail, ReplaceSpaces(rest));
    }
  }

  lemma Utf8Bytes(c: char)
    ensures 0x20 in Utf8(c) ==> c == ' '
    ensures c as int < 0x80 ==> Utf8(c) == [c as int]
  {}

  function Spaced(c: char): string {
    if c == ' ' then "+" else EscapeChar(c)
  }

  lemma ReplaceEscaped(c: char, rest: string)
    ensures ReplaceSpaces(EscapeChar(c) + rest) == Spaced(c) + ReplaceSpaces(rest)
  {
    Utf8Bytes(c);
    if Unescaped(c) {
      ReplacePlain(c, rest);
    } else if c == ' ' {
      assert Triplets([0x20]) == Triplet(0x20) + "" == Triplet(0x20);
      ReplaceTriplet(0x20, rest);
    } else {
      ReplaceTriplets(Utf8(c), rest);
    }
  }

  lemma {:induction false} MarksOfConcat(a: string, b: string)
    ensures ReplaceMarks(a + b) == ReplaceMarks(a) + ReplaceMarks(b)
  {
    if a == "" {
      assert a + b == b;
    } else {
      assert (a + b)[1..] == a[1..] + b;
      MarksOfConcat(a[1..], b);
    }
  }

  lemma {:induction false} MarksOfPlain(s: string)
    requires forall i :: 0 <= i < |s| ==> !Mark(s[i])
    ensures ReplaceMarks(s) == s
  {
    if s != "" {
      MarksOfPlain(s[1..]);
      assert s == [s[0]] + s[1..];
    }
  }

  lemma {:induction false} TripletsArePlain(bytes: seq<byte>)
    ensures forall i :: 0 <= i < |Triplets(bytes)| ==> var c := Triplets(bytes)[i]; c == '%' || HexValue(c).Some?
  {
    if bytes != [] { TripletsArePlain(bytes[1..]); }
  }

  lemma MarkedTriplet(c: char)
    requires Mark(c)
    ensures ReplaceMarks([c]) == Triplet(c as int) == Triplets(Utf8(c))
  {
    HeadAndTail(Triplet(c as int));
    Utf8Bytes(c);
  }

  lemma TripletsUnmarked(c: char)
    ensures ReplaceMarks(Triplets(Utf8(c))) == Triplets(Utf8(c))
  {
    TripletsArePlain(Utf8(c));
    MarksOfPlain(Triplets(Utf8(c)));
  }

  lemma MarksOfSpaced(c: char)
    ensures ReplaceMarks(Spaced(c)) == FormChar(c)
  {
    if Mark(c) {
      MarkedTriplet(c);
    } else if c == ' ' || Unescaped(c) {
      MarksOfPlain(Spaced(c));
    } else {
      TripletsUnmarked(c);
    }
  }

  /** Encoding the whole string and rewriting it twice is encoding each character by the standard:
      no %20 is ever found across two triplets, and no mark inside one. */
  lemma {:induction false} EncodeIsFormEncode(s: string)
    ensures Encode(s) == FormEncode(s)
  {
    if s != "" {
      var rest := EncodeComponent(s[1..]);
      ReplaceEscaped(s[0], rest);
      MarksOfConcat(Spaced(s[0]), ReplaceSpaces(rest));
      MarksOfSpaced(s[0]);
      EncodeIsFormEncode(s[1..]);
    }
  }

  // ----- decoding

  function OctetAt(s: string, i: nat): Option<byte> {
    if i + 2 >= |s| || s[i] != '%' then None
    else match (HexValue(s[i + 1]), HexValue(s[i + 2]))
      case (Some(high), Some(low)) => Some(high as int * 16 + low)
      case _ => None
  }

  function ContinuationAt(s: string, i: nat): Option<nat> {
    match OctetAt(s, i)
    case Some(b) => if 0x80 <= b < 0xC0 then Some(b - 0x80) else None
    case None => None
  }

  /** A decoded character and how much text it took. */
  datatype Piece = Piece(c: char, size: nat)

  function Scalar(n: nat, least: nat, size: nat): Option<Piece> {
    if n < least || 0xD800 <= n < 0xE000 || n >= 0x110000 then None else Some(Piece(n as char, size))
  }

  /** One character from its triplets; overlong forms, surrogates and stray bytes are errors. */
  function PieceAt(s: string): Option<Piece> {
    match OctetAt(s, 0)
    case None => None
    case Some(b) =>
      if b < 0x80 then Some(Piece(b as char, 3))
      else match (ContinuationAt(s, 3), ContinuationAt(s, 6), ContinuationAt(s, 9))
        case (Some(x), y, z) =>
          if 0xC0 <= b < 0xE0 then Scalar((b - 0xC0) * 64 + x, 0x80, 6)
          else if 0xE0 <= b < 0xF0 && y.Some? then Scalar((b - 0xE0) * 4096 + x * 64 + y.value, 0x800, 9)
          else if 0xF0 <= b < 0xF8 && y.Some? && z.Some? then
            Scalar((b - 0xF0) * 262144 + x * 4096 + y.value * 64 + z.value, 0x10000, 12)
          else None
        case (None, _, _) => None
  }

  function Cons(c: char, rest: Option<string>): Option<string> {
    if rest.Some? then Some([c] + rest.value) else None
  }

  function DecodeComponent(s: string): Option<string>
    decreases |s|
  {
    if s == "" then Some("")
    else if s[0] != '%' then Cons(s[0], DecodeComponent(s[1..]))
    else match PieceAt(s)
      case Some(piece) => if 0 < piece.size <= |s| then Cons(piece.c, DecodeComponent(s[piece.size..])) else None
      case None => None
  }

  /** replace(/\+/g, ' ') */
  function PlusToSpace(s: string): string {
    if s == "" then "" else [if s[0] == '+' then ' ' else s[0]] + PlusToSpace(s[1..])
  }

  function Decode(s: string): Option<string> {
    DecodeComponent(PlusToSpace(s))
  }

  lemma HexRoundTrip(d: nibble)
    ensures HexValue(Hex(d)) == Some(d) && Hex(d) != '+'
  {}

  lemma OctetOfTriplet(b: byte, s: string, i: nat)
    requires i + 3 <= |s| && s[i..i + 3] == Triplet(b)
    ensures OctetAt(s, i) == Some(b)
  {
    HexRoundTrip(b / 16);
    HexRoundTrip(b % 16);
    assert s[i..i + 3][0] == s[i] && s[i..i + 3][1] == s[i + 1] && s[i..i + 3][2] == s[i + 2];
  }

  lemma {:induction false} TripletsAt(bytes: seq<byte>, k: nat)
    requires k < |bytes|
    ensures |Triplets(bytes)| == 3 * |bytes| && Triplets(bytes)[3 * k..3 * k + 3] == Triplet(bytes[k])
  {
    var tail := Triplets(bytes[1..]);
    if |bytes| > 1 {
      TripletsAt(bytes[1..], if k == 0 then 0 else k - 1);
      if k > 0 { assert Triplets(bytes)[3 * k..3 * k + 3] == tail[3 * (k - 1)..3 * (k - 1) + 3]; }
    }
  }

  lemma OctetsOf(bytes: seq<byte>, rest: string, k: nat)
    requires k < |bytes|
    ensures OctetAt(Triplets(bytes) + rest, 3 * k) == Some(bytes[k]) && |Triplets(bytes)| == 3 * |bytes|
  {
    TripletsAt(bytes, k);
    var s := Triplets(bytes) + rest;
    assert s[3 * k..3 * k + 3] == Triplets(bytes)[3 * k..3 * k + 3];
    OctetOfTriplet(bytes[k], s, 3 * k);
  }

  lemma SixBitDigits(n: nat)
    ensures n / 64 * 64 + n % 64 == n
    ensures n / 4096 * 4096 + n / 64 % 64 * 64 + n % 64 == n
    ensures n / 262144 * 262144 + n / 4096 % 64 * 4096 + n / 64 % 64 * 64 + n % 64 == n
  {
    assert n / 64 / 64 == n / 4096 && n / 4096 / 64 == n / 262144;
  }

  predicate Octets(s: string, bytes: seq<byte>) {
    forall k :: 0 <= k < |bytes| ==> OctetIs(s, k, bytes[k])
  }

  predicate OctetIs(s: string, k: nat, b: byte) {
    OctetAt(s, 3 * k) == Some(b)
  }

  lemma TwoBytePiece(c: char, s: string)
    requires 0x80 <= c as int < 0x800 && Octets(s, Utf8(c))
    ensures PieceAt(s) == Some(Piece(c, 6))
  {
    var bytes := Utf8(c);
    SixBitDigits(c as int);
    assert OctetIs(s, 0, bytes[0]) && OctetIs(s, 1, bytes[1]);
    assert ContinuationAt(s, 3) == Some(c as int % 64);
  }

  lemma ThreeBytePiece(c: char, s: string)
    requires 0x800 <= c as int < 0x10000 && Octets(s, Utf8(c))
    ensures PieceAt(s) == Some(Piece(c, 9))
  {
    var bytes := Utf8(c);
    SixBitDigits(c as int);
    assert OctetIs(s, 0, bytes[0]) && OctetIs(s, 1, bytes[1]) && OctetIs(s, 2, bytes[2]);
    assert ContinuationAt(s, 3) == Some(c as int / 64 % 64) && ContinuationAt(s, 6) == Some(c as int % 64);
  }

  lemma FourBytePiece(c: char, s: string)
    requires 0x10000 <= c as int && Octets(s, Utf8(c))
    ensures PieceAt(s) == Some(Piece(c, 12))
  {
    var bytes := Utf8(c);
    SixBitDigits(c as int);
    assert OctetIs(s, 0, bytes[0]) && OctetIs(s, 1, bytes[1]) && OctetIs(s, 2, bytes[2]) && OctetIs(s, 3, bytes[3]);
    assert ContinuationAt(s, 3) == Some(c as int / 4096 % 64) && ContinuationAt(s, 6) == Some(c as int / 64 % 64);
    assert ContinuationAt(s, 9) == Some(c as int % 64);
  }

  lemma PieceOfChar(c: char, rest: string)
    ensures PieceAt(Triplets(Utf8(c)) + rest) == Some(Piece(c, 3 * |Utf8(c)|))
  {
    OctetsOfAll(Utf8(c), rest);
    PieceOfOctets(c, Triplets(Utf8(c)) + rest);
  }

  lemma PieceOfOctets(c: char, s: string)
    requires Octets(s, Utf8(c))
    ensures PieceAt(s) == Some(Piece(c, 3 * |Utf8(c)|))
  {
    if c as int < 0x80 {
      OneBytePiece(c, s);
    } else if c as int < 0x800 {
      TwoBytePiece(c, s);
    } else if c as int < 0x10000 {
      ThreeBytePiece(c, s);
    } else {
      FourBytePiece(c, s);
    }
  }

  lemma OctetsOfAll(bytes: seq<byte>, rest: string)
    ensures Octets(Triplets(bytes) + rest, bytes)
  {
    forall k | 0 <= k < |bytes| ensures OctetIs(Triplets(bytes) + rest, k, bytes[k]) {
      OctetsOf(bytes, rest, k);
    }
  }

  lemma OneBytePiece(c: char, s: string)
    requires c as int < 0x80 && Octets(s, Utf8(c))
    ensures PieceAt(s) == Some(Piece(c, 3))
  {
    assert OctetIs(s, 0, Utf8(c)[0]);
  }

  lemma DecodeEscaped(c: char, rest: string)
    ensures DecodeComponent(Triplets(Utf8(c)) + rest) == Cons(c, DecodeComponent(rest))
  {
    var s := Triplets(Utf8(c)) + rest;
    PieceOfChar(c, rest);
    OctetsOf(Utf8(c), rest, 0);
    assert s[0] == '%';
    assert s[3 * |Utf8(c)|..] == rest;
  }

  lemma {:induction false} PlusOfConcat(a: string, b: string)
    ensures PlusToSpace(a + b) == PlusToSpace(a) + PlusToSpace(b)
  {
    if a == "" {
      assert a + b == b;
    } else {
      assert (a + b)[1..] == a[1..] + b;
      PlusOfConcat(a[1..], b);
    }
  }

  lemma {:induction false} PlusOfPlain(s: string)
    requires '+' !in s
    ensures PlusToSpace(s) == s
  {
    if s != "" { PlusOfPlain(s[1..]); }
  }

  lemma DecodeFormChar(c: char, rest: string)
    ensures DecodeComponent(PlusToSpace(FormChar(c)) + rest) == Cons(c, DecodeComponent(rest))
  {
    if c == ' ' {
      assert PlusToSpace("+") == " " + "" == " ";
      assert (" " + rest)[1..] == rest;
    } else if Alphanumeric(c) || c in "*-._" {
      PlusOfPlain([c]);
      assert ([c] + rest)[1..] == rest;
    } else {
      TripletsArePlain(Utf8(c));
      PlusOfPlain(Triplets(Utf8(c)));
      DecodeEscaped(c, rest);
    }
  }

  /** Decoding undoes encoding, for every well-formed string. */
  lemma {:induction false} DecodeEncode(s: string)
    ensures Decode(Encode(s)) == Some(s)
  {
    EncodeIsFormEncode(s);
    if s != "" {
      DecodeEncode(s[1..]);
      EncodeIsFormEncode(s[1..]);
      PlusOfConcat(FormChar(s[0]), FormEncode(s[1..]));
      DecodeFormChar(s[0], PlusToSpace(FormEncode(s[1..])));
      assert [s[0]] + s[1..] == s;
    }
  }

  /** None of the separators a parser looks for. */
  predicate Plain(s: string) {
    forall i :: 0 <= i < |s| ==> s[i] !in "&=?"
  }

  lemma FormCharIsPlain(c: char)
    ensures Plain(FormChar(c))
  {
    TripletsArePlain(Utf8(c));
  }

  lemma PlainConcat(a: string, b: string)
    requires Plain(a) && Plain(b)
    ensures Plain(a + b)
  {}

  lemma {:induction false} FormEncodeIsPlain(s: string)
    ensures Plain(FormEncode(s))
  {
    if s != "" {
      FormEncodeIsPlain(s[1..]);
      FormCharIsPlain(s[0]);
      PlainConcat(FormChar(s[0]), FormEncode(s[1..]));
    }
  }

  /** The printed alphabet has no separators in it. */
  lemma EncodeIsPlain(s: string)
    ensures Plain(Encode(s))
  {
    EncodeIsFormEncode(s);
    FormEncodeIsPlain(s);
  }
}
