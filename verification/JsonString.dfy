/** `parse_string` of ser2mqtt/src/cJSON.c: a first pass over the literal sizes the output buffer, a
    second pass decodes into it. The two passes can disagree about where escapes begin, because the
    four characters after `\u` are read as a number even when they are not hexadecimal digits. */
module JsonString {
  import opened Bytes
  import opened JsonText

  // ---------------------------------------------------------------- what is decoded

  function HexValue(b: byte): int {
    if 48 <= b <= 57 then b as int - 48
    else if 65 <= b <= 70 then b as int - 55
    else if 97 <= b <= 102 then b as int - 87
    else -1
  }

  predicate IsHex4(h: seq<byte>) {
    |h| == 4 && forall i :: 0 <= i < 4 ==> HexValue(h[i]) >= 0
  }

  /** `parse_hex4`: zero for anything that is not four hexadecimal digits. */
  function Hex4(h: seq<byte>): (v: nat)
    requires |h| == 4
    ensures v < 0x10000
  {
    if IsHex4(h)
    then 0x1000 * HexValue(h[0]) + 0x100 * HexValue(h[1]) + 0x10 * HexValue(h[2]) + HexValue(h[3])
    else 0
  }

  /** The UTF-8 encoding (RFC 3629, section 3). */
  function Utf8(cp: nat): (b: seq<byte>)
    requires cp <= 0x10FFFF
    ensures |b| == if cp < 0x80 then 1 else if cp < 0x800 then 2 else if cp < 0x10000 then 3 else 4
  {
    if cp < 0x80 then [cp as byte]
    else if cp < 0x800 then [Lead(0xC0, cp / 0x40), Continuation(cp)]
    else if cp < 0x10000 then [Lead(0xE0, cp / 0x1000), Continuation(cp / 0x40), Continuation(cp)]
    else [Lead(0xF0, cp / 0x40000), Continuation(cp / 0x1000), Continuation(cp / 0x40), Continuation(cp)]
  }

  function Lead(mark: nat, bits: nat): byte
    requires mark + bits < 0x100
  {
    (mark + bits) as byte
  }

  /** `(codepoint | 0x80) & 0xBF`, cut to a byte. */
  function Continuation(cp: nat): byte {
    (0x80 + cp % 0x40) as byte
  }

  predicate HighSurrogate(code: nat) {
    0xD800 <= code <= 0xDBFF
  }

  predicate LowSurrogate(code: nat) {
    0xDC00 <= code <= 0xDFFF
  }

  /** RFC 2781, section 2.2. */
  function FromPair(high: nat, low: nat): nat
    requires HighSurrogate(high) && LowSurrogate(low)
    ensures 0x10000 <= FromPair(high, low) <= 0x10FFFF
  {
    0x10000 + (high - 0xD800) * 0x400 + (low - 0xDC00)
  }

  /** How many input characters one `\u` escape takes, and the bytes it stands for; zero is failure. */
  datatype Literal = Literal(length: nat, bytes: seq<byte>)

  function Utf16Literal(s: seq<byte>, p: nat, end: nat): (l: Literal)
    requires p <= end <= |s|
    ensures l.length in {0, 6, 12} && p + l.length <= end
    ensures l.length == 0 ==> l.bytes == []
  {
    if end - p < 6 then Literal(0, [])
    else
      var first := Hex4(s[p + 2..p + 6]);
      if LowSurrogate(first) then Literal(0, [])
      else if HighSurrogate(first) then
        if end - (p + 6) < 6 || s[p + 6] != BACKSLASH || s[p + 7] != 117 then Literal(0, [])
        else
          var second := Hex4(s[p + 8..p + 12]);
          if !LowSurrogate(second) then Literal(0, []) else Literal(12, Utf8(FromPair(first, second)))
      else Literal(6, Utf8(first))
  }

  datatype Decoded = Done(bytes: seq<byte>, at: nat) | Bad(at: nat)

  function Prepend(bytes: seq<byte>, d: Decoded): (r: Decoded)
    ensures (r.Done? <==> d.Done?) && r.at == d.at
  {
    match d
    case Done(rest, at) => Done(bytes + rest, at)
    case Bad(at) => Bad(at)
  }

  /** The byte a two-character escape stands for, if it is one. */
  function Simple(c: byte): Option<byte> {
    if c == 98 then Some(8)
    else if c == 102 then Some(12)
    else if c == 110 then Some(10)
    else if c == 114 then Some(13)
    else if c == 116 then Some(9)
    else if c == QUOTE || c == BACKSLASH || c == 47 then Some(c)
    else None
  }

  /** The second pass, from `p` up to the closing quote at `end`. */
  function Decode(s: seq<byte>, p: nat, end: nat): (d: Decoded)
    requires end < |s|
    decreases end - p
  {
    if p >= end then Done([], p)
    else if s[p] != BACKSLASH then Prepend([s[p]], Decode(s, p + 1, end))
    else if s[p + 1] == 117 then
      var l := Utf16Literal(s, p, end);
      if l.length == 0 then Bad(p) else Prepend(l.bytes, Decode(s, p + l.length, end))
    else match Simple(s[p + 1])
      case Some(c) => Prepend([c], Decode(s, p + 2, end))
      case None => Bad(p)
  }

  /** Where the first pass finds the closing quote. */
  function StringEnd(s: seq<byte>, q: nat): (r: Option<nat>)
    ensures r.Some? ==> q <= r.value < |s| && s[r.value] == QUOTE
    decreases |s| - q
  {
    if q >= |s| then None
    else if s[q] == QUOTE then Some(q)
    else if s[q] != BACKSLASH then StringEnd(s, q + 1)
    else if q + 1 >= |s| then None
    else StringEnd(s, q + 2)
  }

  /** How many escapes the first pass counts that begin in `s[q..p]`. */
  function Skips(s: seq<byte>, q: nat, p: nat): nat
    requires p <= |s|
    decreases p - q
  {
    if q >= p then 0
    else if s[q] == BACKSLASH then 1 + Skips(s, q + 2, p)
    else Skips(s, q + 1, p)
  }

  datatype StringResult = StringOk(value: seq<byte>, at: nat) | StringFail(at: nat)

  /** What `parse_string` leaves behind: the C string and the offset after the quote, or the offset of
      the failure. */
  function ParseString(s: seq<byte>, off: nat): (r: StringResult)
    requires off < |s|
    ensures off < r.at <= |s|
  {
    if s[off] != QUOTE then StringFail(off + 1)
    else match StringEnd(s, off + 1)
      case None => StringFail(off + 1)
      case Some(end) =>
        DecodeAt(s, off + 1, end);
        match Decode(s, off + 1, end)
        case Bad(p) => StringFail(p)
        case Done(bytes, _) => StringOk(CString(bytes), end + 1)
  }

  lemma {:induction false} DecodeAt(s: seq<byte>, p: nat, end: nat)
    requires end < |s|
    ensures Decode(s, p, end).Bad? ==> p <= Decode(s, p, end).at < end
    ensures Decode(s, p, end).Done? && p <= end ==> end <= Decode(s, p, end).at <= end + 1
    decreases end - p
  {
    if p < end {
      if s[p] != BACKSLASH {
        DecodeAt(s, p + 1, end);
      } else if s[p + 1] == 117 {
        var l := Utf16Literal(s, p, end);
        if l.length != 0 {
          DecodeAt(s, p + l.length, end);
        }
      } else if Simple(s[p + 1]).Some? && p + 2 <= end {
        DecodeAt(s, p + 2, end);
      }
    }
  }

  // ---------------------------------------------------------------- the first pass bounds the second

  /** Escapes never begin at neighbouring positions, and only at a backslash. */
  lemma {:induction false} SkipsStep(s: seq<byte>, q: nat, p: nat)
    requires q <= p < |s|
    ensures Skips(s, q, p) <= Skips(s, q, p + 1) <= Skips(s, q, p) + 1
    ensures s[p] != BACKSLASH ==> Skips(s, q, p + 1) == Skips(s, q, p)
    ensures p + 1 < |s| ==> Skips(s, q, p + 2) <= Skips(s, q, p) + 1
    decreases p - q
  {
    if p + 1 < |s| {
      assert Skips(s, p + 1, p + 2) <= 1 by {
        assert Skips(s, p + 2, p + 2) == 0 == Skips(s, p + 3, p + 2);
      }
    }
    if q < p {
      if s[q] == BACKSLASH {
        if q + 2 <= p {
          SkipsStep(s, q + 2, p);
        }
      } else {
        SkipsStep(s, q + 1, p);
      }
    }
  }

  lemma SkipsOfLiteral(s: seq<byte>, q: nat, p: nat)
    requires q <= p && p + 6 <= |s| && s[p] == BACKSLASH && s[p + 1] == 117
    ensures Skips(s, q, p + 6) <= Skips(s, q, p) + 3
    ensures IsHex4(s[p + 2..p + 6]) ==> Skips(s, q, p + 6) <= Skips(s, q, p) + 1
  {
    SkipsStep(s, q, p);
    SkipsStep(s, q, p + 2);
    SkipsStep(s, q, p + 4);
    if IsHex4(s[p + 2..p + 6]) {
      var h := s[p + 2..p + 6];
      assert HexValue(h[0]) >= 0 && HexValue(h[1]) >= 0 && HexValue(h[2]) >= 0 && HexValue(h[3]) >= 0;
      SkipsStep(s, q, p + 3);
      SkipsStep(s, q, p + 5);
    }
  }

  /** However the two passes disagree, one decoded escape never writes more bytes than the first pass
      has set aside for the characters it takes. */
  lemma LiteralFits(s: seq<byte>, q: nat, p: nat, end: nat)
    requires q <= p < end < |s| && s[p] == BACKSLASH && s[p + 1] == 117
    ensures var l := Utf16Literal(s, p, end);
      l.length > 0 ==> |l.bytes| + Skips(s, q, p + l.length) <= l.length + Skips(s, q, p)
  {
    var l := Utf16Literal(s, p, end);
    if l.length > 0 {
      SkipsOfLiteral(s, q, p);
      if l.length == 12 {
        SkipsOfLiteral(s, q, p + 6);
      } else if !IsHex4(s[p + 2..p + 6]) {
        assert l.bytes == Utf8(0);
      }
    }
  }

  lemma SimpleFits(s: seq<byte>, q: nat, p: nat)
    requires q <= p && p + 1 < |s|
    ensures 1 + Skips(s, q, p + 2) <= 2 + Skips(s, q, p)
    ensures s[p] != BACKSLASH ==> Skips(s, q, p + 1) == Skips(s, q, p)
  {
    SkipsStep(s, q, p);
  }

  /** Bytes set aside up to any point the second pass can reach never exceed the whole buffer less its
      last place. */
  lemma {:induction false} RoomAt(s: seq<byte>, start: nat, p: nat, end: nat)
    requires start <= end && start <= p <= end + 1 && end < |s| && s[end] == QUOTE
    ensures p - Skips(s, start, p) <= end + 1 - Skips(s, start, end)
    ensures Skips(s, start, start) == 0
    decreases end + 1 - p
  {
    if p <= end {
      SkipsStep(s, start, p);
      RoomAt(s, start, p + 1, end);
    } else {
      SkipsStep(s, start, end);
    }
  }

  // ---------------------------------------------------------------- the code

  method ParseHex4(s: seq<byte>, p: nat) returns (h: nat)
    requires p + 4 <= |s|
    ensures h == Hex4(s[p..p + 4])
  {
    h := 0;
    ghost var four := s[p..p + 4];
    for i := 0 to 4
      invariant forall k :: 0 <= k < i ==> HexValue(four[k]) >= 0
      invariant h == HexPrefix(four, i)
    {
      var b := s[p + i];
      if 48 <= b <= 57 {
        h := h + (b as int - 48);
      } else if 65 <= b <= 70 {
        h := h + 10 + (b as int - 65);
      } else if 97 <= b <= 102 {
        h := h + 10 + (b as int - 97);
      } else {
        assert HexValue(four[i]) < 0;
        return 0;
      }
      if i < 3 {
        h := h * 0x10;
      }
    }
    assert HexPrefix(four, 1) == 0x10 * HexValue(four[0]);
    assert HexPrefix(four, 2) == 0x100 * HexValue(four[0]) + 0x10 * HexValue(four[1]);
    assert HexPrefix(four, 3) == 0x1000 * HexValue(four[0]) + 0x100 * HexValue(four[1]) + 0x10 * HexValue(four[2]);
  }

  /** The accumulator after `i` digits, already shifted for the next one. */
  ghost function HexPrefix(h: seq<byte>, i: nat): int
    requires |h| == 4 && i <= 4
  {
    if i == 0 then 0
    else (HexPrefix(h, i - 1) + HexValue(h[i - 1])) * if i < 4 then 0x10 else 1
  }

  /** `utf16_literal_to_utf8`: the bytes go to `output[n..]`; the length is zero on failure. */
  method Utf16LiteralToUtf8(s: seq<byte>, p: nat, end: nat, output: array<byte>, n: nat)
    returns (sequenceLength: nat, written: nat)
    requires p <= end <= |s|
    requires n + |Utf16Literal(s, p, end).bytes| <= output.Length
    modifies output
    ensures sequenceLength == Utf16Literal(s, p, end).length
    ensures sequenceLength > 0 ==> written == n + |Utf16Literal(s, p, end).bytes|
    ensures sequenceLength > 0 ==> output[..written] == old(output[..n]) + Utf16Literal(s, p, end).bytes
  {
    hide Utf8, Hex4, IsHex4;
    written := n;
    if end - p < 6 {
      return 0, n;
    }
    var firstCode := ParseHex4(s, p + 2);
    if 0xDC00 <= firstCode <= 0xDFFF {
      return 0, n;
    }
    var codepoint;
    if 0xD800 <= firstCode <= 0xDBFF {
      sequenceLength := 12;
      if end - (p + 6) < 6 {
        return 0, n;
      }
      if s[p + 6] != BACKSLASH || s[p + 7] != 117 {
        return 0, n;
      }
      var secondCode := ParseHex4(s, p + 8);
      if secondCode < 0xDC00 || secondCode > 0xDFFF {
        return 0, n;
      }
      codepoint := 0x10000 + (firstCode - 0xD800) * 0x400 + (secondCode - 0xDC00);
    } else {
      sequenceLength := 6;
      codepoint := firstCode;
    }
    written := EncodeUtf8(codepoint, output, n);
  }

  method EncodeUtf8(cp: nat, output: array<byte>, n: nat) returns (written: nat)
    requires cp <= 0x10FFFF && n + |Utf8(cp)| <= output.Length
    modifies output
    ensures written == n + |Utf8(cp)|
    ensures output[..written] == old(output[..n]) + Utf8(cp)
  {
    hide Utf8, Continuation;
    var length, mark := 1, 0;
    if cp < 0x80 {
    } else if cp < 0x800 {
      length, mark := 2, 0xC0;
    } else if cp < 0x10000 {
      length, mark := 3, 0xE0;
    } else {
      length, mark := 4, 0xF0;
    }
    var rest, position := cp, length - 1;
    while position > 0
      invariant 0 <= position < length
      invariant output[..n] == old(output[..n])
      invariant rest == ShiftedOut(cp, length - 1 - position)
      invariant forall k :: position < k < length ==> output[n + k] == Utf8(cp)[k]
    {
      ShiftedByte(cp, length, position);
      output[n + position] := Continuation(rest);
      rest := rest / 0x40;
      position := position - 1;
    }
    LeadByte(cp);
    output[n] := (mark + rest) as byte;
    written := n + length;
    hide ShiftedOut;
    assert output[n..written] == Utf8(cp);
    assert output[..written] == output[..n] + output[n..written];
  }

  /** `codepoint` after `k` times `codepoint >>= 6`. */
  ghost function ShiftedOut(cp: nat, k: nat): nat {
    if k == 0 then cp else ShiftedOut(cp, k - 1) / 0x40
  }

  lemma LeadByte(cp: nat)
    requires cp <= 0x10FFFF
    ensures var length := |Utf8(cp)|;
      var mark := if length == 1 then 0 else if length == 2 then 0xC0 else if length == 3 then 0xE0 else 0xF0;
      mark + ShiftedOut(cp, length - 1) < 0x100 && Utf8(cp)[0] == (mark + ShiftedOut(cp, length - 1)) as byte
  {
    assert ShiftedOut(cp, 1) == cp / 0x40;
    assert ShiftedOut(cp, 2) == cp / 0x40 / 0x40 == cp / 0x1000;
    assert ShiftedOut(cp, 3) == cp / 0x1000 / 0x40 == cp / 0x40000;
  }

  lemma ShiftedByte(cp: nat, length: nat, position: nat)
    requires cp <= 0x10FFFF && length == |Utf8(cp)| && 0 < position < length
    ensures Utf8(cp)[position] == Continuation(ShiftedOut(cp, length - 1 - position))
  {
    assert ShiftedOut(cp, 1) == cp / 0x40;
    assert ShiftedOut(cp, 2) == cp / 0x40 / 0x40 == cp / 0x1000;
  }

  /** The first pass: the closing quote and the number of backslashes it stepped over. */
  method SizeString(s: seq<byte>, start: nat) returns (end: Option<nat>, skippedBytes: nat)
    requires start <= |s|
    ensures end == StringEnd(s, start)
    ensures end.Some? ==> skippedBytes == Skips(s, start, end.value)
    ensures end.Some? ==> skippedBytes <= end.value - start
  {
    var q := start;
    skippedBytes := 0;
    while q < |s| && s[q] != QUOTE
      invariant start <= q <= |s|
      invariant StringEnd(s, q) == StringEnd(s, start)
      invariant forall p :: q <= p <= |s| ==> Skips(s, start, p) == skippedBytes + Skips(s, q, p)
      invariant 2 * skippedBytes <= q - start
    {
      if s[q] == BACKSLASH {
        if q + 1 >= |s| {
          return None, skippedBytes;
        }
        skippedBytes := skippedBytes + 1;
        q := q + 1;
      }
      q := q + 1;
    }
    if q >= |s| {
      return None, skippedBytes;
    }
    end := Some(q);
  }

  /** The second pass, into a buffer of the size that the first pass asked for. Every write is within
      the buffer, and one place is left for the NUL. */
  method DecodeString(s: seq<byte>, start: nat, end: nat, output: array<byte>) returns (ok: bool, n: nat, at: nat)
    requires start <= end < |s| && s[end] == QUOTE
    requires output.Length == (end - start + 1 - Skips(s, start, end)) + 1
    modifies output
    ensures ok <==> Decode(s, start, end).Done?
    ensures ok ==> n < output.Length && output[..n] == Decode(s, start, end).bytes
    ensures at == Decode(s, start, end).at
  {
    hide Utf8, Utf16Literal, Skips, Prepend;
    n, at := 0, start;
    PrependNothing(Decode(s, start, end));
    RoomAt(s, start, start, end);
    ghost var whole := Decode(s, start, end);
    while at < end
      invariant start <= at <= end + 1
      invariant n + Skips(s, start, at) <= at - start
      invariant n < output.Length
      invariant whole == Prepend(output[..n], Decode(s, at, end))
      decreases end - at
    {
      ghost var bytes := output[..n];
      if s[at] != BACKSLASH {
        SimpleFits(s, start, at);
        RoomAt(s, start, at + 1, end);
        output[n] := s[at];
        n, at := n + 1, at + 1;
        PrependTwice(bytes, [output[n - 1]], Decode(s, at, end));
        assert output[..n] == bytes + [output[n - 1]];
      } else if s[at + 1] == 117 {
        LiteralFits(s, start, at, end);
        RoomAt(s, start, at + Utf16Literal(s, at, end).length, end);
        ghost var l := Utf16Literal(s, at, end);
        var sequenceLength, written := Utf16LiteralToUtf8(s, at, end, output, n);
        if sequenceLength == 0 {
          return false, n, at;
        }
        n, at := written, at + sequenceLength;
        PrependTwice(bytes, l.bytes, Decode(s, at, end));
      } else {
        var simple := Simple(s[at + 1]);
        if simple == None {
          return false, n, at;
        }
        SimpleFits(s, start, at);
        RoomAt(s, start, at + 2, end);
        output[n] := simple.value;
        n, at := n + 1, at + 2;
        PrependTwice(bytes, [output[n - 1]], Decode(s, at, end));
        assert output[..n] == bytes + [output[n - 1]];
      }
    }
    ok := true;
    PrependToEnd(output[..n], at);
  }

  lemma PrependTwice(a: seq<byte>, b: seq<byte>, d: Decoded)
    ensures Prepend(a, Prepend(b, d)) == Prepend(a + b, d)
  {
    if d.Done? {
      assert a + (b + d.bytes) == a + b + d.bytes;
    }
  }

  // ---------------------------------------------------------------- escapes of Unicode text

  /** RFC 3629, section 3: what one UTF-8 sequence at the start of `b` encodes, and its length; None if
      it is cut short, overlong, a surrogate, or out of range. */
  function Utf8First(b: seq<byte>): (r: Option<(nat, nat)>)
    ensures r.Some? ==> 0 < r.value.1 <= |b|
  {
    if b == [] then None
    else if b[0] < 0x80 then Some((b[0] as nat, 1))
    else if 0xC2 <= b[0] <= 0xDF && |b| >= 2 && Trailing(b[1]) then
      Some(((b[0] as nat - 0xC0) * 0x40 + Payload(b[1]), 2))
    else if 0xE0 <= b[0] <= 0xEF && |b| >= 3 && Trailing(b[1]) && Trailing(b[2]) then
      var cp := (b[0] as nat - 0xE0) * 0x1000 + Payload(b[1]) * 0x40 + Payload(b[2]);
      if cp < 0x800 || 0xD800 <= cp <= 0xDFFF then None else Some((cp, 3))
    else if 0xF0 <= b[0] <= 0xF4 && |b| >= 4 && Trailing(b[1]) && Trailing(b[2]) && Trailing(b[3]) then
      var cp := (b[0] as nat - 0xF0) * 0x40000 + Payload(b[1]) * 0x1000 + Payload(b[2]) * 0x40 + Payload(b[3]);
      if cp < 0x10000 || cp > 0x10FFFF then None else Some((cp, 4))
    else None
  }

  predicate Trailing(b: byte) {
    0x80 <= b < 0xC0
  }

  function Payload(b: byte): nat
    requires Trailing(b)
  {
    b as nat - 0x80
  }

  function Utf8Decode(b: seq<byte>): Option<seq<nat>> {
    if b == [] then Some([])
    else match Utf8First(b)
      case None => None
      case Some((cp, length)) =>
        match Utf8Decode(b[length..])
        case None => None
        case Some(rest) => Some([cp] + rest)
  }

  /** The code points that JSON text can carry into a C string. */
  predicate IsScalar(cp: nat) {
    0 < cp <= 0x10FFFF && !(0xD800 <= cp <= 0xDFFF)
  }

  predicate AllScalar(cps: seq<nat>) {
    forall i :: 0 <= i < |cps| ==> IsScalar(cps[i])
  }

  function Utf8All(cps: seq<nat>): seq<byte>
    requires AllScalar(cps)
  {
    if cps == [] then [] else Utf8(cps[0]) + Utf8All(cps[1..])
  }

  /** `t` is the six characters of `\u` and four hexadecimal digits, in either case, worth `code`. */
  predicate IsUnit(t: seq<byte>, code: nat) {
    |t| == 6 && t[0] == BACKSLASH && t[1] == 117 && IsHex4(t[2..6]) && Hex4(t[2..6]) == code
  }

  /** What one character, two-character escape, unit or surrogate pair at the start of `t` takes and
      stands for (RFC 8259, section 7); length zero if there is none. Bytes other than the quote and the
      backslash stand for themselves, the control characters too. */
  function Piece(t: seq<byte>): (l: Literal)
    ensures l.length <= |t|
  {
    if t == [] || t[0] == QUOTE then Literal(0, [])
    else if t[0] != BACKSLASH then Literal(1, [t[0]])
    else if |t| < 2 then Literal(0, [])
    else if t[1] != 117 then
      (match Simple(t[1])
       case Some(c) => Literal(2, [c])
       case None => Literal(0, []))
    else if |t| < 6 || !IsHex4(t[2..6]) || LowSurrogate(Hex4(t[2..6])) then Literal(0, [])
    else if !HighSurrogate(Hex4(t[2..6])) then Literal(6, Utf8(Hex4(t[2..6])))
    else if |t| < 12 || t[6] != BACKSLASH || t[7] != 117 || !IsHex4(t[8..12]) || !LowSurrogate(Hex4(t[8..12]))
    then Literal(0, [])
    else Literal(12, Utf8(FromPair(Hex4(t[2..6]), Hex4(t[8..12]))))
  }

  /** What the characters between two quotes stand for, if they are nothing but such pieces. */
  function Meaning(t: seq<byte>): Option<seq<byte>>
    decreases |t|
  {
    if t == [] then Some([])
    else
      var first := Piece(t);
      if first.length == 0 then None
      else
        var rest := Meaning(t[first.length..]);
        if rest.None? then None else Some(first.bytes + rest.value)
  }

  /** The grammar of a string: any unit is allowed in it, a surrogate or not. */
  function Step(t: seq<byte>): (k: nat)
    ensures k <= |t|
  {
    if t == [] || t[0] == QUOTE then 0
    else if t[0] != BACKSLASH then 1
    else if |t| >= 6 && t[1] == 117 && IsHex4(t[2..6]) then 6
    else if |t| >= 2 && Simple(t[1]).Some? then 2
    else 0
  }

  predicate Grammar(t: seq<byte>)
    decreases |t|
  {
    t == [] || (Step(t) > 0 && Grammar(t[Step(t)..]))
  }

  /** `t` is one way to write a code point: as it is, as a two-character escape, as a unit, or as a
      surrogate pair. */
  predicate SpellsOne(t: seq<byte>, cp: nat)
    requires IsScalar(cp)
  {
    || (t == Utf8(cp) && cp != QUOTE as nat && cp != BACKSLASH as nat)
    || (|t| == 2 && t[0] == BACKSLASH && Simple(t[1]).Some? && Simple(t[1]).value as nat == cp)
    || IsUnit(t, cp)
    || (|t| == 12 && HighSurrogate(Hex4(t[2..6])) && LowSurrogate(Hex4(t[8..12])) &&
        IsUnit(t[..6], Hex4(t[2..6])) && IsUnit(t[6..], Hex4(t[8..12])) &&
        FromPair(Hex4(t[2..6]), Hex4(t[8..12])) == cp)
  }

  /** Each code point written in one of these ways. */
  predicate Spells(pieces: seq<seq<byte>>, cps: seq<nat>)
    requires AllScalar(cps)
  {
    |pieces| == |cps| && forall i :: 0 <= i < |cps| ==> SpellsOne(pieces[i], cps[i])
  }

  function Flat(pieces: seq<seq<byte>>): seq<byte> {
    if pieces == [] then [] else pieces[0] + Flat(pieces[1..])
  }

  lemma HexIsPlain(b: byte)
    ensures HexValue(b) >= 0 ==> b != QUOTE && b != BACKSLASH
  {
  }

  lemma QuotedAt(s: seq<byte>, off: nat, t: seq<byte>)
    ensures At(s, off, [QUOTE] + t) ==> off + 1 + |t| <= |s| && s[off] == QUOTE && At(s, off + 1, t)
    ensures At(s, off, [QUOTE] + t + [QUOTE]) ==>
              At(s, off, [QUOTE] + t) && off + 1 + |t| < |s| && s[off + 1 + |t|] == QUOTE
  {
    AtSplit(s, off, [QUOTE], t);
    AtSplit(s, off, [QUOTE] + t, [QUOTE]);
    if At(s, off, [QUOTE] + t) {
      AtByte(s, off, [QUOTE], 0);
    }
    if At(s, off, [QUOTE] + t + [QUOTE]) {
      AtByte(s, off + 1 + |t|, [QUOTE], 0);
    }
  }

  /** The first pass steps over a unit. */
  lemma EndAfterUnit(s: seq<byte>, p: nat, code: nat)
    requires p + 6 <= |s| && IsUnit(s[p..p + 6], code)
    ensures StringEnd(s, p) == StringEnd(s, p + 6)
  {
    var t := s[p..p + 6];
    var h := t[2..6];
    assert s[p] == t[0] && s[p + 1] == t[1] && s[p + 2] == t[2] && s[p + 3] == t[3] && s[p + 4] == t[4] &&
           s[p + 5] == t[5];
    assert s[p + 2] == h[0] && s[p + 3] == h[1] && s[p + 4] == h[2] && s[p + 5] == h[3];
    HexIsPlain(h[0]);
    HexIsPlain(h[1]);
    HexIsPlain(h[2]);
    HexIsPlain(h[3]);
    hide HexValue, Hex4;
    assert StringEnd(s, p) == StringEnd(s, p + 2);
    assert StringEnd(s, p + 2) == StringEnd(s, p + 3);
    assert StringEnd(s, p + 3) == StringEnd(s, p + 4);
    assert StringEnd(s, p + 4) == StringEnd(s, p + 5);
    assert StringEnd(s, p + 5) == StringEnd(s, p + 6);
  }

  /** Both passes step over one piece, and the second one decodes it. */
  lemma DecodePiece(s: seq<byte>, p: nat, t: seq<byte>, end: nat)
    requires At(s, p, t) && p + |t| <= end < |s| && Piece(t).length > 0
    ensures var l := Piece(t);
      Decode(s, p, end) == Prepend(l.bytes, Decode(s, p + l.length, end)) &&
      StringEnd(s, p) == StringEnd(s, p + l.length)
  {
    hide Utf8, Hex4, IsHex4, Utf16Literal, At, StringEnd, Decode, Prepend;
    AtByte(s, p, t, 0);
    if Piece(t).length <= 2 {
      ShortPiece(s, p, t, end);
    } else {
      AtByte(s, p, t, 1);
      UnitAt(s, p, t);
      LongPiece(s, p, t, end);
      DecodeLiteral(s, p, end);
      EndAfterUnit(s, p, Hex4(t[2..6]));
      if Piece(t).length == 12 {
        AtPrefix(s, p, t, 6);
        UnitAt(s, p + 6, t[6..]);
        assert t[6..][2..6] == t[8..12];
        EndAfterUnit(s, p + 6, Hex4(t[8..12]));
      }
    }
  }

  lemma ShortPiece(s: seq<byte>, p: nat, t: seq<byte>, end: nat)
    requires At(s, p, t) && p + |t| <= end < |s| && 0 < Piece(t).length <= 2
    ensures var l := Piece(t);
      Decode(s, p, end) == Prepend(l.bytes, Decode(s, p + l.length, end)) &&
      StringEnd(s, p) == StringEnd(s, p + l.length)
  {
    hide Utf8, Hex4, IsHex4, Utf16Literal, At, Prepend;
    AtByte(s, p, t, 0);
    if Piece(t).length == 2 {
      AtByte(s, p, t, 1);
    }
  }

  /** A unit at the start of `t` is one at its place in the buffer. */
  lemma UnitAt(s: seq<byte>, p: nat, t: seq<byte>)
    requires At(s, p, t) && |t| >= 6
    ensures p + 6 <= |s| && s[p..p + 6][2..6] == t[2..6] == s[p + 2..p + 6]
    ensures t[0] == BACKSLASH && t[1] == 117 && IsHex4(t[2..6]) ==> IsUnit(s[p..p + 6], Hex4(t[2..6]))
  {
    hide IsHex4, Hex4;
    AtPrefix(s, p, t, 6);
    assert s[p..p + 6] == t[..6];
    assert t[..6][2..6] == t[2..6];
  }

  lemma LongPiece(s: seq<byte>, p: nat, t: seq<byte>, end: nat)
    requires At(s, p, t) && p + |t| <= end < |s| && Piece(t).length > 2
    ensures Utf16Literal(s, p, end) == Piece(t)
    ensures s[p] == BACKSLASH && s[p + 1] == 117
  {
    hide Utf8, Hex4, IsHex4, At;
    AtByte(s, p, t, 0);
    AtByte(s, p, t, 1);
    UnitAt(s, p, t);
    if Piece(t).length == 12 {
      AtByte(s, p, t, 6);
      AtByte(s, p, t, 7);
      AtPrefix(s, p, t, 6);
      UnitAt(s, p + 6, t[6..]);
      assert t[6..][2..6] == t[8..12];
    }
  }

  lemma DecodeLiteral(s: seq<byte>, p: nat, end: nat)
    requires p < end < |s| && s[p] == BACKSLASH && s[p + 1] == 117 && Utf16Literal(s, p, end).length > 0
    ensures Decode(s, p, end) ==
            Prepend(Utf16Literal(s, p, end).bytes, Decode(s, p + Utf16Literal(s, p, end).length, end))
  {
  }

  lemma PrependNothing(d: Decoded)
    ensures Prepend([], d) == d
  {
    if d.Done? {
      assert [] + d.bytes == d.bytes;
    }
  }

  lemma PrependToEnd(bytes: seq<byte>, at: nat)
    ensures Prepend(bytes, Done([], at)) == Done(bytes, at)
  {
    assert bytes + [] == bytes;
  }

  lemma MeaningStep(t: seq<byte>)
    requires t != []
    ensures var first := Piece(t);
      if first.length == 0 || Meaning(t[first.length..]).None? then Meaning(t).None?
      else Meaning(t) == Some(first.bytes + Meaning(t[first.length..]).value)
  {
  }

  /** Text that means something is decoded to that, and what follows it is decoded as if it stood alone. */
  lemma {:induction false} DecodeMeaning(s: seq<byte>, p: nat, t: seq<byte>, end: nat)
    requires Meaning(t).Some? && At(s, p, t) && p + |t| <= end < |s|
    ensures Decode(s, p, end) == Prepend(Meaning(t).value, Decode(s, p + |t|, end))
    ensures StringEnd(s, p) == StringEnd(s, p + |t|)
    decreases |t|
  {
    hide StringEnd, Decode, Prepend, Meaning, Piece, At;
    if t == [] {
      MeaningOfNothing();
      PrependNothing(Decode(s, p, end));
    } else {
      var l := Piece(t);
      MeaningStep(t);
      AtPrefix(s, p, t, l.length);
      DecodePiece(s, p, t, end);
      DecodeMeaning(s, p + l.length, t[l.length..], end);
      PrependTwice(l.bytes, Meaning(t[l.length..]).value, Decode(s, p + |t|, end));
    }
  }

  lemma MeaningOfNothing()
    ensures Meaning([]) == Some([])
  {
  }

  lemma Utf8FirstOfTwo(cp: nat, rest: seq<byte>)
    requires IsScalar(cp) && cp < 0x800
    ensures Utf8First(Utf8(cp) + rest) == Some((cp, |Utf8(cp)|))
  {
  }

  /** Three times six bits come off the bottom of a code point. */
  lemma SixBitSteps(cp: nat)
    ensures cp == cp / 0x40 * 0x40 + cp % 0x40
    ensures cp / 0x40 == cp / 0x1000 * 0x40 + cp / 0x40 % 0x40
    ensures cp / 0x1000 == cp / 0x40000 * 0x40 + cp / 0x1000 % 0x40
  {
    assert cp / 0x40 / 0x40 == cp / 0x1000;
    assert cp / 0x1000 / 0x40 == cp / 0x40000;
  }

  lemma ContinuationPayload(cp: nat)
    ensures Trailing(Continuation(cp)) && Payload(Continuation(cp)) == cp % 0x40
  {
  }

  lemma Utf8FirstOfThree(cp: nat, rest: seq<byte>)
    requires IsScalar(cp) && 0x800 <= cp < 0x10000
    ensures Utf8First(Utf8(cp) + rest) == Some((cp, |Utf8(cp)|))
  {
    SixBitSteps(cp);
    ContinuationPayload(cp);
    ContinuationPayload(cp / 0x40);
    hide Continuation, Payload, Trailing;
    var b := Utf8(cp) + rest;
    assert b[0] as nat == 0xE0 + cp / 0x1000 && b[1] == Continuation(cp / 0x40) && b[2] == Continuation(cp);
  }

  lemma Utf8FirstOfFour(cp: nat, rest: seq<byte>)
    requires IsScalar(cp) && 0x10000 <= cp
    ensures Utf8First(Utf8(cp) + rest) == Some((cp, |Utf8(cp)|))
  {
    SixBitSteps(cp);
    ContinuationPayload(cp);
    ContinuationPayload(cp / 0x40);
    ContinuationPayload(cp / 0x1000);
    hide Continuation, Payload, Trailing;
    var b := Utf8(cp) + rest;
    assert b[0] as nat == 0xF0 + cp / 0x40000 && b[1] == Continuation(cp / 0x1000);
    assert b[2] == Continuation(cp / 0x40) && b[3] == Continuation(cp);
  }

  /** A conforming UTF-8 decoder gives back the code points. */
  lemma {:induction false} Utf8RoundTrip(cps: seq<nat>)
    requires AllScalar(cps)
    ensures Utf8Decode(Utf8All(cps)) == Some(cps)
    ensures NulFree(Utf8All(cps))
    decreases |cps|
  {
    if cps != [] {
      var cp, rest := cps[0], Utf8All(cps[1..]);
      assert NulFree(Utf8(cp));
      Utf8RoundTrip(cps[1..]);
      if cp < 0x800 {
        Utf8FirstOfTwo(cp, rest);
      } else if cp < 0x10000 {
        Utf8FirstOfThree(cp, rest);
      } else {
        Utf8FirstOfFour(cp, rest);
      }
      hide Utf8, Utf8First;
      assert (Utf8(cp) + rest)[|Utf8(cp)|..] == rest;
      assert [cp] + cps[1..] == cps;
    }
  }

  /** A spelled code point is one piece, or plain bytes that stand for themselves. */
  lemma SpelledMeans(t: seq<byte>, cp: nat, rest: seq<byte>)
    requires IsScalar(cp) && SpellsOne(t, cp) && Meaning(rest).Some?
    ensures Meaning(t + rest) == Some(Utf8(cp) + Meaning(rest).value)
  {
    hide Meaning, Utf8, Hex4, IsHex4;
    if t == Utf8(cp) && cp != QUOTE as nat && cp != BACKSLASH as nat {
      Utf8IsPlain(cp);
      PlainMeans(t, rest);
    } else {
      MeaningStep(t + rest);
      assert |t| >= 6 ==> (t + rest)[2..6] == t[2..6];
      if |t| == 12 {
        assert (t + rest)[8..12] == t[8..12] == t[6..][2..6];
        assert t[..6][2..6] == t[2..6];
        assert t[6..][0] == t[6] && t[6..][1] == t[7];
      }
      SpelledPiece(t, cp, rest);
      assert (t + rest)[|t|..] == rest;
    }
  }

  lemma SpelledPiece(t: seq<byte>, cp: nat, rest: seq<byte>)
    requires IsScalar(cp) && SpellsOne(t, cp) && !(t == Utf8(cp) && cp != QUOTE as nat && cp != BACKSLASH as nat)
    ensures Piece(t + rest) == Literal(|t|, Utf8(cp))
  {
    hide Hex4, IsHex4;
    if |t| == 2 {
      SimpleIsAscii(t[1]);
    } else {
      hide Utf8;
      assert (t + rest)[2..6] == t[2..6];
      if |t| == 12 {
        assert (t + rest)[8..12] == t[8..12] == t[6..][2..6];
        assert t[..6][2..6] == t[2..6] && t[..6][0] == t[0] && t[..6][1] == t[1];
        assert t[6..][0] == t[6] && t[6..][1] == t[7];
      }
    }
  }

  lemma SimpleIsAscii(c: byte)
    ensures Simple(c).Some? ==> Simple(c).value < 0x80 && c != 117
  {
  }

  lemma Utf8IsPlain(cp: nat)
    requires IsScalar(cp) && cp != QUOTE as nat && cp != BACKSLASH as nat
    ensures forall i :: 0 <= i < |Utf8(cp)| ==> Utf8(cp)[i] != QUOTE && Utf8(cp)[i] != BACKSLASH
  {
  }

  lemma {:induction false} PlainMeans(t: seq<byte>, rest: seq<byte>)
    requires Meaning(rest).Some?
    requires forall i :: 0 <= i < |t| ==> t[i] != QUOTE && t[i] != BACKSLASH
    ensures Meaning(t + rest) == Some(t + Meaning(rest).value)
    decreases |t|
  {
    hide Meaning;
    if t == [] {
      assert t + rest == rest && t + Meaning(rest).value == Meaning(rest).value;
    } else {
      PlainMeans(t[1..], rest);
      MeaningStep(t + rest);
      assert (t + rest)[1..] == t[1..] + rest;
      assert [t[0]] + (t[1..] + Meaning(rest).value) == t + Meaning(rest).value;
    }
  }

  lemma {:induction false} SpellingMeans(pieces: seq<seq<byte>>, cps: seq<nat>)
    requires AllScalar(cps) && Spells(pieces, cps)
    ensures Meaning(Flat(pieces)) == Some(Utf8All(cps))
    decreases |cps|
  {
    hide Meaning, SpellsOne, Utf8, IsScalar;
    if cps == [] {
      MeaningOfNothing();
    } else {
      SpellingMeans(pieces[1..], cps[1..]);
      SpelledMeans(pieces[0], cps[0], Flat(pieces[1..]));
    }
  }

  lemma AtTheEnd(s: seq<byte>, end: nat)
    requires end < |s| && s[end] == QUOTE
    ensures Decode(s, end, end) == Done([], end) && StringEnd(s, end) == Some(end)
  {
  }

  lemma ParseStringDone(s: seq<byte>, off: nat, end: nat, d: Decoded)
    requires off < end < |s| && s[off] == QUOTE && StringEnd(s, off + 1) == Some(end)
    requires Decode(s, off + 1, end) == d
    ensures d.Done? ==> ParseString(s, off) == StringOk(CString(d.bytes), end + 1)
    ensures d.Bad? ==> ParseString(s, off) == StringFail(d.at)
  {
  }

  /** A string literal made of such pieces parses to the C string of what they stand for, and the offset
      stops behind its closing quote. */
  lemma MeaningParses(s: seq<byte>, off: nat, t: seq<byte>)
    requires Meaning(t).Some? && At(s, off, [QUOTE] + t + [QUOTE])
    ensures ParseString(s, off) == StringOk(CString(Meaning(t).value), off + |t| + 2)
  {
    hide ParseString, Decode, StringEnd, Meaning, At, Prepend;
    QuotedAt(s, off, t);
    var end := off + 1 + |t|;
    AtTheEnd(s, end);
    DecodeMeaning(s, off + 1, t, end);
    PrependToEnd(Meaning(t).value, end);
    ParseStringDone(s, off, end, Done(Meaning(t).value, end));
  }

  /** Unicode text, each code point as it is or escaped in any of the ways there are, parses to its UTF-8
      encoding, which decodes back to the code points. */
  lemma EscapesDecode(s: seq<byte>, off: nat, pieces: seq<seq<byte>>, cps: seq<nat>)
    requires AllScalar(cps) && Spells(pieces, cps) && At(s, off, [QUOTE] + Flat(pieces) + [QUOTE])
    ensures ParseString(s, off) == StringOk(Utf8All(cps), off + |Flat(pieces)| + 2)
    ensures Utf8Decode(Utf8All(cps)) == Some(cps)
  {
    hide ParseString, Utf8All, Spells, Utf8Decode, At, AllScalar, NulFree, Meaning, Flat, CString;
    SpellingMeans(pieces, cps);
    MeaningParses(s, off, Flat(pieces));
    Utf8RoundTrip(cps);
  }

  // ---------------------------------------------------------------- surrogates

  /** The unit at `q` is followed by one worth a low surrogate. */
  predicate Paired(s: seq<byte>, q: nat) {
    q + 12 <= |s| && s[q + 6] == BACKSLASH && s[q + 7] == 117 && LowSurrogate(Hex4(s[q + 8..q + 12]))
  }

  /** After any text that means something, a lone or mis-paired surrogate makes the whole string fail,
      whatever follows: at the surrogate, or, if no quote closes the string, behind its first quote. */
  lemma SurrogateRejected(s: seq<byte>, off: nat, t: seq<byte>, code: nat)
    requires Meaning(t).Some? && At(s, off, [QUOTE] + t)
    requires off + 1 + |t| + 6 <= |s| && IsUnit(s[off + 1 + |t|..off + 1 + |t| + 6], code)
    requires LowSurrogate(code) || (HighSurrogate(code) && !Paired(s, off + 1 + |t|))
    ensures ParseString(s, off) == StringFail(if StringEnd(s, off + 1).Some? then off + 1 + |t| else off + 1)
  {
    hide StringEnd, Hex4, Decode, IsUnit, CString, At, Paired, Meaning;
    var q := off + 1 + |t|;
    QuotedAt(s, off, t);
    EndAfterUnit(s, q, code);
    DecodeMeaning(s, off + 1, t, q);
    if StringEnd(s, off + 1).Some? {
      var end := StringEnd(s, off + 1).value;
      LoneSurrogateFails(s, q, end, code);
      DecodeMeaning(s, off + 1, t, end);
    }
  }

  lemma LoneSurrogateFails(s: seq<byte>, q: nat, end: nat, code: nat)
    requires q + 6 <= end < |s| && IsUnit(s[q..q + 6], code)
    requires LowSurrogate(code) || (HighSurrogate(code) && !Paired(s, q))
    ensures Decode(s, q, end) == Bad(q)
  {
    assert s[q..q + 6][2..6] == s[q + 2..q + 6];
    assert s[q..q + 6][0] == s[q] && s[q..q + 6][1] == s[q + 1];
    hide Hex4, IsHex4, Utf8;
    assert Utf16Literal(s, q, end).length == 0;
  }

  /** Decides every literal of the grammar: it parses exactly when all its surrogates are paired. */
  lemma GrammarDecides(s: seq<byte>, off: nat, t: seq<byte>)
    requires Grammar(t) && At(s, off, [QUOTE] + t + [QUOTE])
    ensures ParseString(s, off).StringOk? <==> Meaning(t).Some?
    ensures Meaning(t).Some? ==> ParseString(s, off) == StringOk(CString(Meaning(t).value), off + |t| + 2)
  {
    hide ParseString, Decode, StringEnd, Meaning, At, Prepend, Grammar;
    QuotedAt(s, off, t);
    if Meaning(t).Some? {
      MeaningParses(s, off, t);
    } else {
      var end := off + 1 + |t|;
      AtTheEnd(s, end);
      GrammarEnds(s, off + 1, t);
      Unpaired(s, off + 1, t, end);
      ParseStringDone(s, off, end, Decode(s, off + 1, end));
    }
  }

  /** The first pass steps over a literal of the grammar. */
  lemma {:induction false} GrammarEnds(s: seq<byte>, p: nat, t: seq<byte>)
    requires Grammar(t) && At(s, p, t)
    ensures StringEnd(s, p) == StringEnd(s, p + |t|)
    decreases |t|
  {
    hide StringEnd, At, IsHex4, Hex4;
    if t != [] {
      var k := Step(t);
      AtPrefix(s, p, t, k);
      GrammarEnds(s, p + k, t[k..]);
      if k == 6 {
        UnitAt(s, p, t);
        EndAfterUnit(s, p, Hex4(t[2..6]));
      } else {
        EndAfterShort(s, p, t);
      }
    }
  }

  lemma EndAfterShort(s: seq<byte>, p: nat, t: seq<byte>)
    requires At(s, p, t) && 0 < Step(t) <= 2
    ensures StringEnd(s, p) == StringEnd(s, p + Step(t))
  {
    hide At, IsHex4;
    AtByte(s, p, t, 0);
    if Step(t) == 2 {
      AtByte(s, p, t, 1);
    }
  }

  /** A literal of the grammar that means nothing has a surrogate that is not paired. */
  lemma {:induction false} Unpaired(s: seq<byte>, p: nat, t: seq<byte>, end: nat)
    requires Grammar(t) && Meaning(t).None? && At(s, p, t) && p + |t| == end < |s| && s[end] == QUOTE
    ensures Decode(s, p, end).Bad?
    decreases |t|
  {
    hide Meaning, At, Decode, Grammar, Hex4, IsHex4, Utf8;
    if t == [] {
      MeaningOfNothing();
    } else {
      MeaningStep(t);
      var l := Piece(t);
      if l.length > 0 {
        AtPrefix(s, p, t, l.length);
        GrammarAfterPiece(t);
        Unpaired(s, p + l.length, t[l.length..], end);
        DecodePiece(s, p, t, end);
      } else {
        LoneUnit(s, p, t, end);
        LoneSurrogateFails(s, p, end, Hex4(t[2..6]));
      }
    }
  }

  lemma GrammarAfterPiece(t: seq<byte>)
    requires Grammar(t) && Piece(t).length > 0
    ensures Grammar(t[Piece(t).length..])
  {
    hide Hex4, IsHex4, Utf8;
    if Piece(t).length == 12 {
      assert t[6..][2..6] == t[8..12];
      assert t[6..][6..] == t[12..];
    }
  }

  /** Where the grammar goes on but no piece begins, a surrogate stands alone. */
  lemma LoneUnit(s: seq<byte>, p: nat, t: seq<byte>, end: nat)
    requires Grammar(t) && t != [] && Piece(t).length == 0
    requires At(s, p, t) && p + |t| == end < |s| && s[end] == QUOTE
    ensures |t| >= 6 && p + 6 <= end && IsUnit(s[p..p + 6], Hex4(t[2..6]))
    ensures LowSurrogate(Hex4(t[2..6])) || (HighSurrogate(Hex4(t[2..6])) && !Paired(s, p))
  {
    hide Hex4, IsHex4, Utf8, At;
    assert Step(t) == 6;
    UnitAt(s, p, t);
    if |t| > 7 {
      NextUnit(s, p, t);
    } else if |t| > 6 {
      AtByte(s, p, t, 6);
      assert Step(t[6..]) > 0;
    }
  }

  lemma NextUnit(s: seq<byte>, p: nat, t: seq<byte>)
    requires At(s, p, t) && |t| > 7 && Step(t) == 6 && Grammar(t)
    ensures p + 8 <= |s| && s[p + 6] == t[6] && s[p + 7] == t[7]
    ensures t[6] == BACKSLASH && t[7] == 117 ==> |t| >= 12 && t[8..12] == s[p + 8..p + 12] && IsHex4(t[8..12])
  {
    hide Hex4, IsHex4, Utf8, At;
    AtByte(s, p, t, 6);
    AtByte(s, p, t, 7);
    AtPrefix(s, p, t, 6);
    SimpleIsAscii(117);
    assert Step(t[6..]) > 0;
    if |t| >= 12 {
      UnitAt(s, p + 6, t[6..]);
      assert t[6..][2..6] == t[8..12];
    }
  }
}
