/** The escapes of RFC 8259, section 7, in plain characters: what the printer writes and what the parser
    takes, one by one. */
module JsonEscapes {
  import opened Bytes
  import opened JsonText
  import opened JsonString

  const HEX: string := "0123456789abcdef"
  const UPPER_HEX: string := "0123456789ABCDEF"

  // ---------------------------------------------------------------- printing

  /** How each byte of a string is printed: with the two-character escape if there is one, as a unit with
      lower-case digits if it is another control character, and as it is otherwise. */
  lemma EscapeTable(c: byte)
    ensures Escape(c) ==
            if c == 34 then Ascii("\\\"")
            else if c == 92 then Ascii("\\\\")
            else if c == 8 then Ascii("\\b")
            else if c == 12 then Ascii("\\f")
            else if c == 10 then Ascii("\\n")
            else if c == 13 then Ascii("\\r")
            else if c == 9 then Ascii("\\t")
            else if c < 32 then Ascii("\\u00") + [HEX[c as int / 16] as byte, HEX[c as int % 16] as byte]
            else [c]
  {
    if c < 32 {
      HexDigitIs(c as nat / 16);
      HexDigitIs(c as nat % 16);
    }
  }

  lemma HexDigitIs(n: nat)
    requires n < 16
    ensures HexDigit(n) as int == HEX[n] as int
  {
  }

  // ---------------------------------------------------------------- parsing

  /** The two-character escapes: exactly eight, among them the slash, which is never printed with one. */
  lemma SimpleTable(c: byte)
    ensures Simple(c) ==
            if c == '\"' as byte then Some('\"' as byte)
            else if c == '\\' as byte then Some('\\' as byte)
            else if c == '/' as byte then Some('/' as byte)
            else if c == 'b' as byte then Some(8)
            else if c == 'f' as byte then Some(12)
            else if c == 'n' as byte then Some(10)
            else if c == 'r' as byte then Some(13)
            else if c == 't' as byte then Some(9)
            else None
  {
  }

  /** Hexadecimal digits count in either case, and no other byte does. */
  lemma HexTable(n: nat, b: byte)
    requires n < 16
    ensures HexValue(HEX[n] as byte) == n == HexValue(UPPER_HEX[n] as byte)
    ensures HexValue(b) >= 0 <==> 48 <= b <= 57 || 65 <= b <= 70 || 97 <= b <= 102
  {
  }

  /** Four of them are a number in base sixteen. */
  lemma UnitValue(a: nat, b: nat, c: nat, d: nat)
    requires a < 16 && b < 16 && c < 16 && d < 16
    ensures var h := [HEX[a] as byte, UPPER_HEX[b] as byte, HEX[c] as byte, UPPER_HEX[d] as byte];
      IsHex4(h) && Hex4(h) == ((a * 16 + b) * 16 + c) * 16 + d
  {
    HexTable(a, 0);
    HexTable(b, 0);
    HexTable(c, 0);
    HexTable(d, 0);
  }

  /** The surrogates (RFC 2781, section 2): every code point beyond U+FFFF is that of exactly one pair. */
  lemma PairsAre(cp: nat, high: nat, low: nat)
    requires 0x10000 <= cp <= 0x10FFFF
    ensures HighSurrogate(high) <==> 0xD800 <= high < 0xDC00
    ensures LowSurrogate(low) <==> 0xDC00 <= low < 0xE000
    ensures HighSurrogate(high) && LowSurrogate(low) ==>
              (FromPair(high, low) == cp <==>
               high == 0xD800 + (cp - 0x10000) / 1024 && low == 0xDC00 + (cp - 0x10000) % 1024)
  {
  }

  // ---------------------------------------------------------------- what is not in the grammar

  /** A backslash before any other character makes the string fail there, whatever stands around it; if no
      quote closes the string, it fails behind its first quote. */
  lemma UnknownEscapeRejected(s: seq<byte>, off: nat, t: seq<byte>, c: byte)
    requires Meaning(t).Some? && At(s, off, [QUOTE] + t + [BACKSLASH, c])
    requires c != 117 && Simple(c).None?
    ensures ParseString(s, off) == StringFail(if StringEnd(s, off + 1).Some? then off + 1 + |t| else off + 1)
  {
    hide StringEnd, Decode, CString, At, Meaning, Simple;
    var q := off + 1 + |t|;
    AtSplit(s, off, [QUOTE] + t, [BACKSLASH, c]);
    QuotedAt(s, off, t);
    AtByte(s, q, [BACKSLASH, c], 0);
    AtByte(s, q, [BACKSLASH, c], 1);
    DecodeMeaning(s, off + 1, t, q);
    if StringEnd(s, off + 1).Some? {
      var end := StringEnd(s, off + 1).value;
      EndBehindEscape(s, q);
      BadEscape(s, q, end);
      DecodeMeaning(s, off + 1, t, end);
    }
  }

  lemma EndBehindEscape(s: seq<byte>, q: nat)
    requires q + 1 < |s| && s[q] == BACKSLASH && StringEnd(s, q).Some?
    ensures q + 2 <= StringEnd(s, q).value
  {
  }

  lemma BadEscape(s: seq<byte>, q: nat, end: nat)
    requires q + 1 < end < |s| && s[q] == BACKSLASH && s[q + 1] != 117 && Simple(s[q + 1]).None?
    ensures Decode(s, q, end) == Bad(q)
  {
  }

  /** A unit with other characters than hexadecimal digits is taken for U+0000, which ends the C string. */
  lemma NonHexEndsString(s: seq<byte>, off: nat, t: seq<byte>, h: seq<byte>)
    requires Meaning(t).Some? && |h| == 4 && !IsHex4(h) && At(s, off, [QUOTE] + t + ([BACKSLASH, 117] + h))
    ensures ParseString(s, off).StringOk? ==> ParseString(s, off).value == CString(Meaning(t).value)
  {
    hide StringEnd, Decode, CString, At, Meaning, Simple, IsHex4, Prepend;
    var q := off + 1 + |t|;
    AtSplit(s, off, [QUOTE] + t, [BACKSLASH, 117] + h);
    AtSplit(s, q, [BACKSLASH, 117], h);
    QuotedAt(s, off, t);
    AtByte(s, q, [BACKSLASH, 117], 0);
    AtByte(s, q, [BACKSLASH, 117], 1);
    DecodeMeaning(s, off + 1, t, q);
    if StringEnd(s, off + 1).Some? {
      var end := StringEnd(s, off + 1).value;
      EndBehindEscape(s, q);
      DecodeMeaning(s, off + 1, t, end);
      SliceAt(s, q + 2, h);
      ZeroDecoded(s, q, end);
      if Decode(s, q, end).Done? {
        Joined(Meaning(t).value, Decode(s, q, end));
        CutAtZero(Meaning(t).value, Decode(s, q, end).bytes);
      }
    }
  }

  /** Such a unit of plain characters is no failure: the literal goes on behind it and is closed as usual. */
  lemma NonHexIsZero(s: seq<byte>, off: nat, t: seq<byte>, h: seq<byte>, u: seq<byte>)
    requires Meaning(t).Some? && Meaning(u).Some? && |h| == 4 && !IsHex4(h)
    requires forall i :: 0 <= i < 4 ==> h[i] != 34 && h[i] != 92
    requires At(s, off, [QUOTE] + t + ([BACKSLASH, 117] + h) + u + [QUOTE])
    ensures ParseString(s, off) == StringOk(CString(Meaning(t).value), off + |t| + 6 + |u| + 2)
  {
    hide StringEnd, Decode, CString, At, Meaning, Simple, IsHex4, Prepend, ParseString;
    var q, end := off + 1 + |t|, off + 1 + |t| + 6 + |u|;
    AtSplit(s, off, [QUOTE] + t + ([BACKSLASH, 117] + h) + u, [QUOTE]);
    AtByte(s, end, [QUOTE], 0);
    AtSplit(s, off, [QUOTE] + t + ([BACKSLASH, 117] + h), u);
    AtSplit(s, off, [QUOTE] + t, [BACKSLASH, 117] + h);
    AtSplit(s, q, [BACKSLASH, 117], h);
    QuotedAt(s, off, t);
    SliceAt(s, q + 2, h);
    HexSkipped(s, q, h, end);
    AtTheEnd(s, end);
    DecodeMeaning(s, off + 1, t, end);
    DecodeMeaning(s, q + 6, u, end);
    PrependToEnd(Meaning(u).value, end);
    var d := Decode(s, off + 1, end);
    PrependTwice(Meaning(t).value, [0], Done(Meaning(u).value, end));
    Joined(Meaning(t).value + [0], Done(Meaning(u).value, end));
    assert d.bytes == Meaning(t).value + ([0] + Meaning(u).value);
    CutAtZero(Meaning(t).value, [0] + Meaning(u).value);
    ParseStringDone(s, off, end, d);
  }

  lemma HexSkipped(s: seq<byte>, q: nat, h: seq<byte>, end: nat)
    requires At(s, q, [BACKSLASH, 117]) && At(s, q + 2, h) && |h| == 4 && !IsHex4(h) && q + 6 <= end < |s|
    requires forall i :: 0 <= i < 4 ==> h[i] != 34 && h[i] != 92
    ensures StringEnd(s, q) == StringEnd(s, q + 6)
    ensures Decode(s, q, end) == Prepend([0], Decode(s, q + 6, end))
  {
    hide At, Meaning, IsHex4, Prepend, Simple;
    AtByte(s, q, [BACKSLASH, 117], 0);
    AtByte(s, q, [BACKSLASH, 117], 1);
    SliceAt(s, q + 2, h);
    MeaningOfNothing();
    PlainMeans(h, []);
    assert h + [] == h;
    DecodeMeaning(s, q + 2, h, end);
    ZeroLiteral(s, q, end);
  }

  lemma ZeroLiteral(s: seq<byte>, q: nat, end: nat)
    requires q + 6 <= end < |s| && !IsHex4(s[q + 2..q + 6])
    ensures Utf16Literal(s, q, end) == Literal(6, [0])
  {
    hide IsHex4;
    assert Utf8(0) == [0];
  }

  lemma SliceAt(s: seq<byte>, p: nat, h: seq<byte>)
    requires At(s, p, h)
    ensures p + |h| <= |s| && s[p..p + |h|] == h
  {
  }

  lemma Joined(a: seq<byte>, d: Decoded)
    requires d.Done?
    ensures Prepend(a, d).Done? && Prepend(a, d).bytes == a + d.bytes
  {
  }

  lemma ZeroDecoded(s: seq<byte>, q: nat, end: nat)
    requires q + 6 <= |s| && q + 2 <= end < |s| && s[q] == BACKSLASH && s[q + 1] == 117 && !IsHex4(s[q + 2..q + 6])
    ensures Decode(s, q, end).Done? ==> Decode(s, q, end).bytes != [] && Decode(s, q, end).bytes[0] == 0
  {
    hide IsHex4;
    var l := Utf16Literal(s, q, end);
    if l.length > 0 {
      assert l.bytes == Utf8(0) == [0];
    }
  }

  lemma {:induction false} CutAtZero(a: seq<byte>, b: seq<byte>)
    requires b != [] && b[0] == 0
    ensures CString(a + b) == CString(a)
    decreases |a|
  {
    if a == [] {
      assert a + b == b;
    } else {
      CutAtZero(a[1..], b);
      assert (a + b)[1..] == a[1..] + b;
    }
  }

  /** A literal that is not closed fails behind its first quote, and what is no literal behind its first
      byte. */
  lemma UnclosedRejected(s: seq<byte>, off: nat, t: seq<byte>)
    requires Meaning(t).Some? && At(s, off, [QUOTE] + t) && |s| == off + 1 + |t|
    ensures ParseString(s, off) == StringFail(off + 1)
    ensures forall b: seq<byte> :: b != [] && b[0] != 34 ==> ParseString(b, 0) == StringFail(1)
  {
    hide Decode, CString, At, Meaning, StringEnd;
    QuotedAt(s, off, t);
    EndOfMeaning(s, off + 1, t);
    NoEndAtEnd(s);
  }

  lemma NoEndAtEnd(s: seq<byte>)
    ensures StringEnd(s, |s|).None?
  {
  }

  /** The first pass goes over what means something; a byte more makes the second pass applicable. */
  lemma {:induction false} EndOfMeaning(s: seq<byte>, p: nat, t: seq<byte>)
    requires Meaning(t).Some? && At(s, p, t) && p + |t| == |s|
    ensures StringEnd(s, p) == StringEnd(s, |s|)
    decreases |t|
  {
    hide StringEnd, At, Meaning, Piece, IsHex4, Hex4;
    if t != [] {
      var l := Piece(t);
      MeaningStep(t);
      AtPrefix(s, p, t, l.length);
      PieceIsPassed(s, p, t);
      EndOfMeaning(s, p + l.length, t[l.length..]);
    }
  }

  lemma PieceIsPassed(s: seq<byte>, p: nat, t: seq<byte>)
    requires At(s, p, t) && Piece(t).length > 0
    ensures StringEnd(s, p) == StringEnd(s, p + Piece(t).length)
  {
    hide StringEnd, At, IsHex4, Hex4, Utf8;
    if Piece(t).length <= 2 {
      assert Step(t) == Piece(t).length;
      EndAfterShort(s, p, t);
    } else {
      UnitAt(s, p, t);
      EndAfterUnit(s, p, Hex4(t[2..6]));
      if Piece(t).length == 12 {
        AtPrefix(s, p, t, 6);
        assert t[6..][2..6] == t[8..12];
        UnitAt(s, p + 6, t[6..]);
        EndAfterUnit(s, p + 6, Hex4(t[8..12]));
      }
    }
  }
}
