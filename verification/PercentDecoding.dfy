/** What the decoder accepts, and as what: exactly the spellings of a string. */
module PercentDecoding {
  import opened Wrappers
  import opened PercentEncoding

  /** A hexadecimal digit, in either case. */
  predicate Digit(c: char, d: nibble) {
    c == Hex(d) || (10 <= d && c == 'a' + (d - 10) as char)
  }

  predicate OctetSpelled(s: string, k: nat, b: byte) {
    3 * k + 3 <= |s| && s[3 * k] == '%' && Digit(s[3 * k + 1], b / 16) && Digit(s[3 * k + 2], b % 16)
  }

  /** The text starts with these bytes as triplets. */
  predicate BytesSpelled(s: string, bytes: seq<byte>) {
    forall k :: 0 <= k < |bytes| ==> OctetSpelled(s, k, bytes[k])
  }

  /** A spelling of t: each character stands for itself, unless it is the percent sign, or is given by
      the triplets of its UTF-8 bytes. */
  predicate Spells(s: string, t: string)
    decreases |t|
  {
    if t == "" then s == ""
    else if s == "" then false
    else if s[0] != '%' then s[0] == t[0] && Spells(s[1..], t[1..])
    else
      var n := 3 * |Utf8(t[0])|;
      n <= |s| && BytesSpelled(s, Utf8(t[0])) && Spells(s[n..], t[1..])
  }

  lemma DigitValue(c: char, d: nibble)
    ensures HexValue(c) == Some(d) <==> Digit(c, d)
  {}

  lemma OctetIsSpelled(s: string, k: nat, b: byte)
    ensures OctetIs(s, k, b) <==> OctetSpelled(s, k, b)
  {
    if 3 * k + 2 < |s| {
      DigitValue(s[3 * k + 1], b / 16);
      DigitValue(s[3 * k + 2], b % 16);
      match (HexValue(s[3 * k + 1]), HexValue(s[3 * k + 2]))
      case (Some(high), Some(low)) => SameDigits(high, low, b);
      case _ =>
    }
  }

  lemma SameDigits(high: nibble, low: nibble, b: byte)
    ensures high * 16 + low == b <==> high == b / 16 && low == b % 16
  {
  }

  lemma OctetsAreSpelled(s: string, bytes: seq<byte>)
    ensures Octets(s, bytes) <==> BytesSpelled(s, bytes)
  {
    forall k | 0 <= k < |bytes| ensures OctetIs(s, k, bytes[k]) <==> OctetSpelled(s, k, bytes[k]) {
      OctetIsSpelled(s, k, bytes[k]);
    }
  }

  lemma ContinuationIs(s: string, k: nat)
    ensures ContinuationAt(s, 3 * k).Some? ==>
              ContinuationAt(s, 3 * k).value < 64 && OctetIs(s, k, 0x80 + ContinuationAt(s, 3 * k).value)
  {}

  lemma SixBits(q: nat, r: nat)
    requires r < 64
    ensures (q * 64 + r) / 64 == q && (q * 64 + r) % 64 == r
  {}

  lemma DivideTwice(n: nat)
    ensures n / 4096 == n / 64 / 64 && n / 262144 == n / 64 / 64 / 64
  {
    assert n == n / 64 * 64 + n % 64;
    assert n / 64 == n / 64 / 64 * 64 + n / 64 % 64;
  }

  lemma TwoBytes(b: nat, x: nat, c: char)
    requires b < 0x20 && x < 64 && c as int == b * 64 + x >= 0x80
    ensures Utf8(c) == [0xC0 + b, 0x80 + x]
  {
    SixBits(b, x);
  }

  lemma ThreeBytes(b: nat, x: nat, y: nat, c: char)
    requires b < 0x10 && x < 64 && y < 64 && c as int == b * 4096 + x * 64 + y >= 0x800
    ensures Utf8(c) == [0xE0 + b, 0x80 + x, 0x80 + y]
  {
    DivideTwice(c as int);
    SixBits(b * 64 + x, y);
    SixBits(b, x);
  }

  lemma FourBytes(b: nat, x: nat, y: nat, z: nat, c: char)
    requires b < 8 && x < 64 && y < 64 && z < 64 && c as int == b * 262144 + x * 4096 + y * 64 + z >= 0x10000
    ensures Utf8(c) == [0xF0 + b, 0x80 + x, 0x80 + y, 0x80 + z]
  {
    DivideTwice(c as int);
    SixBits(b * 4096 + x * 64 + y, z);
    SixBits(b * 64 + x, y);
    SixBits(b, x);
  }

  predicate ReadsItsBytes(s: string) {
    PieceAt(s).Some? ==>
      Octets(s, Utf8(PieceAt(s).value.c)) && PieceAt(s).value.size == 3 * |Utf8(PieceAt(s).value.c)|
  }

  lemma TwoBytesRead(s: string, b: byte)
    requires OctetIs(s, 0, b) && 0xC0 <= b < 0xE0
    ensures ReadsItsBytes(s)
  {
    if PieceAt(s).Some? {
      var x := ContinuationAt(s, 3).value;
      ContinuationIs(s, 1);
      TwoBytes(b - 0xC0, x, PieceAt(s).value.c);
      assert Octets(s, [b, 0x80 + x]);
    }
  }

  lemma ThreeBytesRead(s: string, b: byte)
    requires OctetIs(s, 0, b) && 0xE0 <= b < 0xF0
    ensures ReadsItsBytes(s)
  {
    if PieceAt(s).Some? {
      var x, y := ContinuationAt(s, 3).value, ContinuationAt(s, 6).value;
      ContinuationIs(s, 1);
      ContinuationIs(s, 2);
      ThreeBytes(b - 0xE0, x, y, PieceAt(s).value.c);
      assert Octets(s, [b, 0x80 + x, 0x80 + y]);
    }
  }

  lemma FourBytesRead(s: string, b: byte)
    requires OctetIs(s, 0, b) && 0xF0 <= b < 0xF8
    ensures ReadsItsBytes(s)
  {
    if PieceAt(s).Some? {
      var x, y, z := ContinuationAt(s, 3).value, ContinuationAt(s, 6).value, ContinuationAt(s, 9).value;
      ContinuationIs(s, 1);
      ContinuationIs(s, 2);
      ContinuationIs(s, 3);
      FourBytes(b - 0xF0, x, y, z, PieceAt(s).value.c);
      assert Octets(s, [b, 0x80 + x, 0x80 + y, 0x80 + z]);
    }
  }

  /** A piece is read off the UTF-8 bytes of its character and off nothing else: no overlong form, no
      surrogate, no stray byte. */
  lemma PieceHasItsBytes(s: string)
    requires PieceAt(s).Some?
    ensures Octets(s, Utf8(PieceAt(s).value.c)) && PieceAt(s).value.size == 3 * |Utf8(PieceAt(s).value.c)|
  {
    var b := OctetAt(s, 0).value;
    assert OctetIs(s, 0, b);
    if b >= 0xF0 {
      FourBytesRead(s, b);
    } else if b >= 0xE0 {
      ThreeBytesRead(s, b);
    } else if b >= 0x80 {
      TwoBytesRead(s, b);
    }
  }

  lemma PieceIsSpelled(s: string, c: char)
    ensures BytesSpelled(s, Utf8(c)) <==> PieceAt(s) == Some(Piece(c, 3 * |Utf8(c)|))
  {
    OctetsAreSpelled(s, Utf8(c));
    if Octets(s, Utf8(c)) {
      PieceOfOctets(c, s);
    } else if PieceAt(s) == Some(Piece(c, 3 * |Utf8(c)|)) {
      PieceHasItsBytes(s);
    }
  }

  /** The decoder accepts exactly the spellings, and reads each as what it spells. */
  lemma {:induction false} DecodesExactlyWhatIsSpelled(s: string, t: string)
    ensures DecodeComponent(s) == Some(t) <==> Spells(s, t)
    decreases |s|
  {
    if s != "" && t != "" {
      assert [t[0]] + t[1..] == t;
      if s[0] != '%' {
        DecodesExactlyWhatIsSpelled(s[1..], t[1..]);
        ConsIs(s[0], DecodeComponent(s[1..]), t);
      } else {
        PieceIsSpelled(s, t[0]);
        assert BytesSpelled(s, Utf8(t[0])) ==> OctetSpelled(s, |Utf8(t[0])| - 1, Utf8(t[0])[|Utf8(t[0])| - 1]);
        if PieceAt(s).Some? {
          var piece := PieceAt(s).value;
          PieceHasItsBytes(s);
          OctetsAreSpelled(s, Utf8(piece.c));
          assert OctetSpelled(s, |Utf8(piece.c)| - 1, Utf8(piece.c)[|Utf8(piece.c)| - 1]);
          DecodesExactlyWhatIsSpelled(s[piece.size..], t[1..]);
          ConsIs(piece.c, DecodeComponent(s[piece.size..]), t);
        }
      }
    }
  }

  lemma ConsIs(c: char, rest: Option<string>, t: string)
    requires t != ""
    ensures Cons(c, rest) == Some(t) <==> c == t[0] && rest == Some(t[1..])
  {
    if rest.Some? {
      assert ([c] + rest.value)[0] == c && ([c] + rest.value)[1..] == rest.value;
      assert t == [t[0]] + t[1..];
    }
  }

  // ----- texts put together with a separator

  /** Neither the start of a triplet nor a digit in one. */
  predicate Separates(c: char) {
    c != '%' && HexValue(c).None?
  }

  lemma OctetStops(a: string, c: char, b: string, i: nat)
    requires Separates(c) && i <= |a|
    ensures OctetAt(a + [c] + b, i) == OctetAt(a, i)
  {
    assert (a + [c] + b)[|a|] == c;
  }

  /** No piece reaches across a separator. */
  lemma PieceStops(a: string, c: char, b: string)
    requires Separates(c)
    ensures PieceAt(a + [c] + b) == PieceAt(a)
  {
    OctetStops(a, c, b, 0);
    if |a| >= 3 { OctetStops(a, c, b, 3); }
    if |a| >= 6 { OctetStops(a, c, b, 6); }
    if |a| >= 9 { OctetStops(a, c, b, 9); }
  }

  lemma PieceFits(s: string)
    requires PieceAt(s).Some?
    ensures 0 < PieceAt(s).value.size <= |s|
  {
    var bytes := Utf8(PieceAt(s).value.c);
    PieceHasItsBytes(s);
    OctetsAreSpelled(s, bytes);
    assert OctetSpelled(s, |bytes| - 1, bytes[|bytes| - 1]);
  }

  lemma {:induction false} DecodesApart(a: string, c: char, b: string)
    requires Separates(c)
    ensures DecodeComponent(a + [c] + b).Some? <==> DecodeComponent(a).Some? && DecodeComponent(b).Some?
    decreases |a|
  {
    var s := a + [c] + b;
    if a == "" {
      assert s[0] == c && s[1..] == b;
    } else if a[0] != '%' {
      assert s[0] == a[0] && s[1..] == a[1..] + [c] + b;
      DecodesApart(a[1..], c, b);
    } else {
      assert s[0] == '%';
      PieceStops(a, c, b);
      if PieceAt(a).Some? {
        var n := PieceAt(a).value.size;
        PieceFits(a);
        assert s[n..] == a[n..] + [c] + b;
        DecodesApart(a[n..], c, b);
      }
    }
  }

  /** The same for the decoder of a form, which reads a plus sign as a space first. */
  lemma FormDecodesApart(a: string, c: char, b: string)
    requires Separates(c) && c != '+'
    ensures Decode(a + [c] + b).Some? <==> Decode(a).Some? && Decode(b).Some?
  {
    PlusOfConcat(a + [c], b);
    PlusOfConcat(a, [c]);
    PlusOfPlain([c]);
    DecodesApart(PlusToSpace(a), c, PlusToSpace(b));
  }
}
