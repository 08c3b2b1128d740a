/** Parsing what was printed (RFC 8259, sections 2 to 7). The parser sees the text somewhere inside a
    larger buffer, at any nesting depth; the main theorem is about a whole C string. */
module JsonRoundTrip {
  import opened Bytes
  import opened JsonTree
  import opened JsonText
  import opened JsonParse
  import JsonString
  import JsonNumber

  // ---------------------------------------------------------------- blanks

  ghost predicate Blank(s: seq<byte>, p: nat, q: nat) {
    p <= q <= |s| && forall i :: p <= i < q ==> s[i] <= SPACE
  }

  /** Whitespace is skipped up to the next visible byte. */
  lemma {:induction false} SkipTo(s: seq<byte>, p: nat, q: nat)
    requires q < |s| && Blank(s, p, q) && s[q] > SPACE
    ensures NonBlank(s, p) == q && Skip(s, p) == q
    decreases q - p
  {
    if p < q {
      SkipTo(s, p + 1, q);
    }
  }

  // ---------------------------------------------------------------- strings

  /** What is printed for one byte is one piece of a literal and stands for that byte. */
  lemma EscapeMeans(c: byte, rest: seq<byte>)
    requires c != 0
    ensures JsonString.Piece(Escape(c) + rest) == JsonString.Literal(|Escape(c)|, [c])
  {
    hide JsonString.Utf8, JsonString.Hex4, JsonString.IsHex4;
    var t := Escape(c);
    if |t| == 6 {
      assert (t + rest)[2..6] == t[2..6];
      ControlMeans(c);
    }
  }

  lemma ControlMeans(c: byte)
    requires |Escape(c)| == 6
    ensures var h := Escape(c)[2..6];
      JsonString.IsHex4(h) && JsonString.Hex4(h) == c as nat && JsonString.Utf8(c as nat) == [c]
  {
    var h := Escape(c)[2..6];
    assert h == [ZERO, ZERO, HexDigit(c as int / 16), HexDigit(c as int % 16)];
    HexDigitReadsBack(c as nat / 16);
    HexDigitReadsBack(c as nat % 16);
    HexDigitReadsBack(0);
  }

  lemma HexDigitReadsBack(n: nat)
    requires n < 16
    ensures JsonString.HexValue(HexDigit(n)) == n
  {
  }

  /** Between its quotes a printed string means the string. */
  lemma {:induction false} EscapedMeans(k: seq<byte>)
    requires NulFree(k)
    ensures JsonString.Meaning(Escaped(k)) == Some(k)
  {
    hide JsonString.Piece, JsonString.Meaning, Escape;
    if k == [] {
      JsonString.MeaningOfNothing();
    } else {
      var t, rest := Escape(k[0]), Escaped(k[1..]);
      EscapedMeans(k[1..]);
      EscapeMeans(k[0], rest);
      JsonString.MeaningStep(t + rest);
      assert (t + rest)[|t|..] == rest;
      assert [k[0]] + k[1..] == k;
    }
  }

  lemma StringReadsBack(s: seq<byte>, off: nat, k: seq<byte>)
    requires NulFree(k) && At(s, off, StringText(k))
    ensures JsonString.ParseString(s, off) == JsonString.StringOk(k, off + |StringText(k)|)
    ensures s[off] == QUOTE
  {
    hide Escaped, At, NulFree, JsonString.ParseString, JsonString.Meaning;
    JsonString.QuotedAt(s, off, Escaped(k));
    EscapedMeans(k);
    JsonString.MeaningParses(s, off, Escaped(k));
  }

  // ---------------------------------------------------------------- the first byte decides

  /** The first byte of a text is visible, and tells the kind of the value. */
  lemma FirstByte(v: Json, format: bool, depth: nat)
    requires Printable(v)
    ensures var b := Text(v, format, depth)[0];
      b > SPACE && b < 128 &&
      match v
      case Null => b == 110
      case False => b == 102
      case True => b == 116
      case Number(_) => b == MINUS || IsDigit(b)
      case String(_) => b == QUOTE
      case Array(_) => b == OPEN_BRACKET
      case Object(_) => b == OPEN_BRACE
  {
    match v
    case Number(d) => assert Text(v, format, depth) == IntText(d.Floor);
    case Object(members) =>
      assert Text(v, format, depth)[0] == Opening(format)[0];
    case _ =>
  }

  lemma NotAConstant(s: seq<byte>, off: nat)
    requires off < |s|
    ensures s[off] != 110 ==> !Reads(s, off, NULL_TEXT)
    ensures s[off] != 102 ==> !Reads(s, off, FALSE_TEXT)
    ensures s[off] != 116 ==> !Reads(s, off, TRUE_TEXT)
  {
    if off + 4 <= |s| {
      assert s[off..off + 4][0] == s[off];
    }
    if off + 5 <= |s| {
      assert s[off..off + 5][0] == s[off];
    }
  }

  // ---------------------------------------------------------------- trees

  /** The value comes back, and the offset stands right after its text, if the nesting fits; otherwise
      the parse fails. */
  ghost predicate ComesBack<T>(r: Result<T>, v: T, at: nat, fits: bool) {
    if fits then r == Parsed(v, at) else r.Failed?
  }

  /** What may follow a value: a byte that cannot continue a number. */
  ghost predicate Ends(s: seq<byte>, p: nat) {
    p < |s| && !JsonNumber.IsNumberByte(s[p])
  }

  lemma {:induction false} ValueReadsBack(v: Json, format: bool, tabs: nat, s: seq<byte>, off: nat, depth: nat)
    requires Printable(v) && depth <= NESTING_LIMIT
    requires At(s, off, Text(v, format, tabs)) && Ends(s, off + |Text(v, format, tabs)|)
    ensures ComesBack(Value(s, off, depth), v, off + |Text(v, format, tabs)|, depth + Nesting(v) <= NESTING_LIMIT)
    decreases v, 1
  {
    hide Value, Text, At, Ends, PrintableItems, PrintableMembers, NestingOfItems, NestingOfMembers;
    match v
    case Array(items) =>
      ArrayReadsBack(items, format, tabs, s, off, depth);
    case Object(members) =>
      ObjectReadsBack(members, format, tabs, s, off, depth);
    case _ =>
      LeafReadsBack(v, format, tabs, s, off, depth);
  }

  lemma LeafReadsBack(v: Json, format: bool, tabs: nat, s: seq<byte>, off: nat, depth: nat)
    requires !v.Array? && !v.Object? && Printable(v) && depth <= NESTING_LIMIT
    requires At(s, off, Text(v, format, tabs)) && Ends(s, off + |Text(v, format, tabs)|)
    ensures Value(s, off, depth) == Parsed(v, off + |Text(v, format, tabs)|)
  {
    var t := Text(v, format, tabs);
    FirstByte(v, format, tabs);
    AtByte(s, off, t, 0);
    NotAConstant(s, off);
    match v
    case Number(d) => JsonNumber.ParseNumberReadsBack(s, off, d.Floor);
    case String(k) => StringReadsBack(s, off, k);
    case _ =>
  }

  lemma AtThree(s: seq<byte>, p: nat, a: seq<byte>, b: seq<byte>, c: seq<byte>)
    ensures At(s, p, a + b + c) <==> At(s, p, a) && At(s, p + |a|, b) && At(s, p + |a| + |b|, c)
  {
    AtSplit(s, p, a + b, c);
    AtSplit(s, p, a, b);
  }

  /** A text made of four pieces stands where its pieces stand. */
  lemma Pieces(s: seq<byte>, p: nat, t: seq<byte>, a: seq<byte>, b: seq<byte>, c: seq<byte>, d: seq<byte>)
    requires At(s, p, t) && t == a + b + c + d
    ensures At(s, p, a) && At(s, p + |a|, b) && At(s, p + |a| + |b|, c) && At(s, p + |a| + |b| + |c|, d)
    ensures |t| == |a| + |b| + |c| + |d|
  {
    hide At;
    AtSplit(s, p, a + b + c, d);
    AtThree(s, p, a, b, c);
  }

  lemma {:induction false} ArrayReadsBack(items: seq<Json>, format: bool, tabs: nat, s: seq<byte>, off: nat, depth: nat)
    requires PrintableItems(items) && depth <= NESTING_LIMIT
    requires At(s, off, Text(Array(items), format, tabs))
    ensures ComesBack(Value(s, off, depth), Array(items), off + |Text(Array(items), format, tabs)|,
                      depth + Nesting(Array(items)) <= NESTING_LIMIT)
    decreases items, 1
  {
    hide Value, Elements, Text, ItemsText, At, PrintableItems, NestingOfItems, Skip, NonBlank;
    var close := off + 1 + |ItemsText(items, format, tabs + 1)|;
    ArrayLayout(items, format, tabs, s, off);
    ArrayCase(s, off, depth);
    if depth < NESTING_LIMIT {
      if items == [] {
        NoItems(format, tabs + 1);
        SkipTo(s, off + 1, close);
      } else {
        SkipTo(s, off + 1, off + 1);
        ItemsReadBack(items, format, tabs + 1, s, off, off + 1, depth + 1);
      }
    }
  }

  lemma NoItems(format: bool, tabs: nat)
    ensures ItemsText([], format, tabs) == [] && NestingOfItems([]) == 0
    ensures MembersText([], format, tabs) == [] && NestingOfMembers([]) == 0
  {
  }

  lemma ArrayLayout(items: seq<Json>, format: bool, tabs: nat, s: seq<byte>, off: nat)
    requires PrintableItems(items) && At(s, off, Text(Array(items), format, tabs))
    ensures var inner := ItemsText(items, format, tabs + 1);
      var close := off + 1 + |inner|;
      Sees(s, off, OPEN_BRACKET) && At(s, off + 1, inner) && Sees(s, close, CLOSE_BRACKET) &&
      close + 1 == off + |Text(Array(items), format, tabs)| &&
      (items != [] ==> s[off + 1] > SPACE && s[off + 1] != CLOSE_BRACKET)
  {
    hide Text, At, PrintableItems, ItemsText;
    ArrayTextParts(items, format, tabs);
    var inner := ItemsText(items, format, tabs + 1);
    AtThree(s, off, [OPEN_BRACKET], inner, [CLOSE_BRACKET]);
    AtByte(s, off, [OPEN_BRACKET], 0);
    AtByte(s, off + 1 + |inner|, [CLOSE_BRACKET], 0);
    if items != [] {
      ItemsFirstByte(items, format, tabs + 1);
      AtByte(s, off + 1, inner, 0);
    }
  }

  lemma ArrayCase(s: seq<byte>, off: nat, depth: nat)
    requires Sees(s, off, OPEN_BRACKET) && depth <= NESTING_LIMIT
    ensures Value(s, off, depth) == ArrayAt(s, off, depth)
  {
    NotAConstant(s, off);
  }

  lemma ItemsFirstByte(items: seq<Json>, format: bool, depth: nat)
    requires PrintableItems(items) && items != []
    ensures |ItemsText(items, format, depth)| > 0
    ensures var b := ItemsText(items, format, depth)[0]; b > SPACE && b != CLOSE_BRACKET
  {
    FirstByte(items[0], format, depth);
    assert ItemsText(items, format, depth)[0] == Text(items[0], format, depth)[0];
  }

  lemma ArrayTextParts(items: seq<Json>, format: bool, tabs: nat)
    requires PrintableItems(items)
    ensures Text(Array(items), format, tabs) == [OPEN_BRACKET] + ItemsText(items, format, tabs + 1) + [CLOSE_BRACKET]
  {
  }

  /** The loop of `parse_array`, entered at `off`, with the text of the items at `q`. */
  lemma {:induction false} ItemsReadBack(items: seq<Json>, format: bool, tabs: nat, s: seq<byte>, off: nat, q: nat,
                                         depth: nat)
    requires PrintableItems(items) && items != [] && depth <= NESTING_LIMIT
    requires off < |s| && Skip(s, off + 1) == q
    requires At(s, q, ItemsText(items, format, tabs)) && Sees(s, q + |ItemsText(items, format, tabs)|, CLOSE_BRACKET)
    ensures ComesBack(Elements(s, off, depth), items, q + |ItemsText(items, format, tabs)| + 1,
                      depth + NestingOfItems(items) <= NESTING_LIMIT)
    decreases items, 0
  {
    hide Value, Text, At, Skip, Separator, Ends, ItemsText, Nesting, Printable;
    var t := Text(items[0], format, tabs);
    var e := q + |t|;
    ItemsHead(items, format, tabs, s, q);
    ValueReadsBack(items[0], format, tabs, s, q, depth);
    if |items| == 1 {
      assert NestingOfItems(items[1..]) == 0;
      assert items == [items[0]];
    } else {
      ItemsReadBack(items[1..], format, tabs, s, e, e + |Separator(format)|, depth);
      assert [items[0]] + items[1..] == items;
    }
  }

  /** The first item, and what the parser finds behind it. */
  lemma ItemsHead(items: seq<Json>, format: bool, tabs: nat, s: seq<byte>, q: nat)
    requires PrintableItems(items) && items != []
    requires At(s, q, ItemsText(items, format, tabs)) && Sees(s, q + |ItemsText(items, format, tabs)|, CLOSE_BRACKET)
    ensures var t := Text(items[0], format, tabs);
      var e := q + |t|;
      At(s, q, t) && Ends(s, e) && Skip(s, e) == e &&
      if |items| == 1 then e == q + |ItemsText(items, format, tabs)|
      else
        var next := e + |Separator(format)|;
        var rest := ItemsText(items[1..], format, tabs);
        Sees(s, e, COMMA) && Skip(s, e + 1) == next && At(s, next, rest) &&
        next + |rest| == q + |ItemsText(items, format, tabs)|
  {
    hide Text, At, Skip, Separator, ItemsText, Printable, PrintableItems, NulFree, Ends, Sees;
    ItemsTextParts(items, format, tabs);
    var t := Text(items[0], format, tabs);
    var e := q + |t|;
    if |items| == 1 {
      LastItemEnds(s, e);
    } else {
      var rest := ItemsText(items[1..], format, tabs);
      ItemsFirstByte(items[1..], format, tabs);
      SeparatorSkipped(s, q, t, format, rest);
      assert |t + Separator(format) + rest| == |t| + |Separator(format)| + |rest|;
    }
  }

  lemma LastItemEnds(s: seq<byte>, e: nat)
    requires Sees(s, e, CLOSE_BRACKET)
    ensures e < |s| && Skip(s, e) == e && Ends(s, e)
  {
    SkipTo(s, e, e);
    CloseEnds(s, e);
  }

  lemma CloseEnds(s: seq<byte>, e: nat)
    ensures Sees(s, e, CLOSE_BRACKET) || Sees(s, e, CLOSE_BRACE) ==> Ends(s, e)
  {
  }

  lemma ItemsTextParts(items: seq<Json>, format: bool, tabs: nat)
    requires PrintableItems(items) && items != []
    ensures Printable(items[0]) && PrintableItems(items[1..])
    ensures ItemsText(items, format, tabs) ==
            if |items| == 1 then Text(items[0], format, tabs)
            else Text(items[0], format, tabs) + Separator(format) + ItemsText(items[1..], format, tabs)
  {
  }

  lemma SeparatorSkipped(s: seq<byte>, q: nat, t: seq<byte>, format: bool, rest: seq<byte>)
    requires At(s, q, t + Separator(format) + rest) && |rest| > 0 && rest[0] > SPACE
    ensures var e := q + |t|;
      At(s, q, t) && Sees(s, e, COMMA) && Skip(s, e) == e && Ends(s, e) &&
      Skip(s, e + 1) == e + |Separator(format)| && At(s, e + |Separator(format)|, rest)
  {
    hide At, NonBlank, Skip;
    var e := q + |t|;
    AtThree(s, q, t, Separator(format), rest);
    AtByte(s, e, Separator(format), 0);
    AtByte(s, e + |Separator(format)|, rest, 0);
    if format {
      AtByte(s, e, Separator(format), 1);
    }
    SkipTo(s, e, e);
    SkipTo(s, e + 1, e + |Separator(format)|);
  }

  // ---------------------------------------------------------------- objects

  lemma ObjectCase(s: seq<byte>, off: nat, depth: nat)
    requires Sees(s, off, OPEN_BRACE) && depth <= NESTING_LIMIT
    ensures Value(s, off, depth) == ObjectAt(s, off, depth)
  {
    NotAConstant(s, off);
  }

  lemma IndentIsBlank(s: seq<byte>, p: nat, format: bool, depth: nat)
    requires At(s, p, Indent(format, depth))
    ensures Blank(s, p, p + |Indent(format, depth)|)
  {
    var t := Indent(format, depth);
    forall i | p <= i < p + |t| ensures s[i] <= SPACE {
      AtByte(s, p, t, i - p);
    }
  }

  lemma {:induction false} ObjectReadsBack(members: seq<Member>, format: bool, tabs: nat, s: seq<byte>, off: nat,
                                           depth: nat)
    requires PrintableMembers(members) && depth <= NESTING_LIMIT
    requires At(s, off, Text(Object(members), format, tabs))
    ensures ComesBack(Value(s, off, depth), Object(members), off + |Text(Object(members), format, tabs)|,
                      depth + Nesting(Object(members)) <= NESTING_LIMIT)
    decreases members, 1
  {
    hide Value, Members, Text, MembersText, Opening, Indent, At, PrintableMembers, NestingOfMembers, Skip, NonBlank;
    var m := off + |Opening(format)|;
    var inner := MembersText(members, format, tabs + 1);
    var end := m + |inner|;
    var close := end + |Indent(format, tabs)|;
    ObjectLayout(members, format, tabs, s, off);
    ObjectCase(s, off, depth);
    if depth < NESTING_LIMIT {
      if members == [] {
        NoItems(format, tabs + 1);
        SkipTo(s, off + 1, close);
      } else {
        var k := m + |Indent(format, tabs + 1)|;
        MembersFirstByte(members, format, tabs + 1, s, m);
        SkipTo(s, off + 1, k);
        SkipTo(s, k, k);
        MembersReadBack(members, format, tabs + 1, s, k - 1, m, close, depth + 1);
      }
    }
  }

  lemma ObjectLayout(members: seq<Member>, format: bool, tabs: nat, s: seq<byte>, off: nat)
    requires PrintableMembers(members) && At(s, off, Text(Object(members), format, tabs))
    ensures var inner := MembersText(members, format, tabs + 1);
      var m := off + |Opening(format)|;
      var end := m + |inner|;
      var close := end + |Indent(format, tabs)|;
      Sees(s, off, OPEN_BRACE) && off < m && Blank(s, off + 1, m) && At(s, m, inner) && Blank(s, end, close) &&
      Sees(s, close, CLOSE_BRACE) && close + 1 == off + |Text(Object(members), format, tabs)| &&
      (close == end || format)
  {
    hide Text, MembersText, At, PrintableMembers, Opening, Indent, NulFree, Blank;
    ObjectPieces(members, format, tabs, s, off);
    var end := off + |Opening(format)| + |MembersText(members, format, tabs + 1)|;
    OpeningBytes(s, off, format);
    IndentIsBlank(s, end, format, tabs);
    AtByte(s, end + |Indent(format, tabs)|, [CLOSE_BRACE], 0);
    NoIndent(format, tabs);
  }

  lemma NoIndent(format: bool, tabs: nat)
    ensures !format ==> Indent(format, tabs) == []
  {
  }

  lemma ObjectPieces(members: seq<Member>, format: bool, tabs: nat, s: seq<byte>, off: nat)
    requires PrintableMembers(members) && At(s, off, Text(Object(members), format, tabs))
    ensures var inner := MembersText(members, format, tabs + 1);
      var m := off + |Opening(format)|;
      var end := m + |inner|;
      var close := end + |Indent(format, tabs)|;
      At(s, off, Opening(format)) && At(s, m, inner) && At(s, end, Indent(format, tabs)) &&
      At(s, close, [CLOSE_BRACE]) &&
      close + 1 == off + |Text(Object(members), format, tabs)|
  {
    hide Text, MembersText, At, PrintableMembers, Opening, Indent, NulFree;
    ObjectTextParts(members, format, tabs);
    Pieces(s, off, Text(Object(members), format, tabs), Opening(format), MembersText(members, format, tabs + 1),
           Indent(format, tabs), [CLOSE_BRACE]);
  }

  lemma ObjectTextParts(members: seq<Member>, format: bool, tabs: nat)
    requires PrintableMembers(members)
    ensures Text(Object(members), format, tabs) ==
            Opening(format) + MembersText(members, format, tabs + 1) + Indent(format, tabs) + [CLOSE_BRACE]
  {
  }

  lemma OpeningBytes(s: seq<byte>, off: nat, format: bool)
    requires At(s, off, Opening(format))
    ensures Sees(s, off, OPEN_BRACE) && |Opening(format)| > 0 && Blank(s, off + 1, off + |Opening(format)|)
  {
    AtByte(s, off, Opening(format), 0);
    if format {
      AtByte(s, off, Opening(format), 1);
    }
  }

  lemma AfterKeyBytes(s: seq<byte>, c: nat, format: bool)
    requires At(s, c, AfterKey(format))
    ensures Sees(s, c, COLON) && |AfterKey(format)| > 0 && Blank(s, c + 1, c + |AfterKey(format)|)
  {
    AtByte(s, c, AfterKey(format), 0);
    if format {
      AtByte(s, c, AfterKey(format), 1);
    }
  }

  lemma MemberTextParts(x: Member, last: bool, format: bool, tabs: nat)
    requires NulFree(x.key) && Printable(x.value)
    ensures var head := Indent(format, tabs) + StringText(x.key) + AfterKey(format);
      MemberText(x, last, format, tabs) == head + Text(x.value, format, tabs) + AfterMember(format, last) &&
      |head| == |Indent(format, tabs)| + |StringText(x.key)| + |AfterKey(format)|
    ensures StringText(x.key)[0] == QUOTE
  {
  }

  /** The pieces of one member, each where the parser will look for it. */
  lemma MemberLayout(x: Member, last: bool, format: bool, tabs: nat, s: seq<byte>, m: nat)
    requires NulFree(x.key) && Printable(x.value) && At(s, m, MemberText(x, last, format, tabs))
    ensures var k := m + |Indent(format, tabs)|;
      var c := k + |StringText(x.key)|;
      var w := c + |AfterKey(format)|;
      var e := w + |Text(x.value, format, tabs)|;
      Blank(s, m, k) && At(s, k, StringText(x.key)) && Sees(s, k, QUOTE) && Sees(s, c, COLON) && Blank(s, c + 1, w) &&
      At(s, w, Text(x.value, format, tabs)) && w < |s| && s[w] > SPACE && At(s, e, AfterMember(format, last)) &&
      e + |AfterMember(format, last)| == m + |MemberText(x, last, format, tabs)|
  {
    hide MemberText, Text, StringText, AfterMember, AfterKey, At, Indent, Printable, NulFree, Blank;
    MemberPieces(x, last, format, tabs, s, m);
    var k := m + |Indent(format, tabs)|;
    var c := k + |StringText(x.key)|;
    IndentIsBlank(s, m, format, tabs);
    QuoteAt(s, k, x.key);
    AfterKeyBytes(s, c, format);
    TextAt(s, c + |AfterKey(format)|, x.value, format, tabs);
  }

  lemma QuoteAt(s: seq<byte>, k: nat, key: seq<byte>)
    requires At(s, k, StringText(key))
    ensures Sees(s, k, QUOTE)
  {
    assert StringText(key)[0] == QUOTE;
    AtByte(s, k, StringText(key), 0);
  }

  lemma TextAt(s: seq<byte>, w: nat, v: Json, format: bool, tabs: nat)
    requires Printable(v) && At(s, w, Text(v, format, tabs))
    ensures w < |s| && s[w] > SPACE
  {
    FirstByte(v, format, tabs);
    AtByte(s, w, Text(v, format, tabs), 0);
  }

  lemma MemberPieces(x: Member, last: bool, format: bool, tabs: nat, s: seq<byte>, m: nat)
    requires NulFree(x.key) && Printable(x.value) && At(s, m, MemberText(x, last, format, tabs))
    ensures var k := m + |Indent(format, tabs)|;
      var c := k + |StringText(x.key)|;
      var w := c + |AfterKey(format)|;
      var e := w + |Text(x.value, format, tabs)|;
      At(s, m, Indent(format, tabs)) && At(s, k, StringText(x.key)) && At(s, c, AfterKey(format)) &&
      At(s, w, Text(x.value, format, tabs)) && At(s, e, AfterMember(format, last)) &&
      e + |AfterMember(format, last)| == m + |MemberText(x, last, format, tabs)|
  {
    hide MemberText, Text, StringText, AfterMember, AfterKey, At, Indent, Printable, NulFree;
    MemberTextParts(x, last, format, tabs);
    Pieces(s, m, MemberText(x, last, format, tabs), Indent(format, tabs) + StringText(x.key), AfterKey(format),
           Text(x.value, format, tabs), AfterMember(format, last));
    AtSplit(s, m, Indent(format, tabs), StringText(x.key));
    assert m + |Indent(format, tabs) + StringText(x.key)| == m + |Indent(format, tabs)| + |StringText(x.key)|;
  }

  lemma MembersFirstByte(members: seq<Member>, format: bool, tabs: nat, s: seq<byte>, m: nat)
    requires PrintableMembers(members) && members != [] && At(s, m, MembersText(members, format, tabs))
    ensures var k := m + |Indent(format, tabs)|; Blank(s, m, k) && Sees(s, k, QUOTE)
  {
    AtSplit(s, m, MemberText(members[0], |members| == 1, format, tabs), MembersText(members[1..], format, tabs));
    MemberLayout(members[0], |members| == 1, format, tabs, s, m);
  }

  function ColonAt(x: Member, format: bool, tabs: nat, m: nat): nat {
    m + |Indent(format, tabs)| + |StringText(x.key)|
  }

  lemma KeyReadsBack(x: Member, last: bool, format: bool, tabs: nat, s: seq<byte>, off: nat, m: nat)
    requires NulFree(x.key) && Printable(x.value) && At(s, m, MemberText(x, last, format, tabs))
    requires off < |s| && Skip(s, off + 1) == m + |Indent(format, tabs)|
    ensures Key(s, off) == Parsed(x.key, ColonAt(x, format, tabs, m))
    ensures var c := ColonAt(x, format, tabs, m);
      c + |AfterKey(format)| < |s| && Skip(s, c + 1) == c + |AfterKey(format)| &&
      At(s, c + |AfterKey(format)|, Text(x.value, format, tabs))
  {
    hide MemberText, Text, StringText, AfterMember, AfterKey, Indent, At, Skip, NonBlank, Printable, NulFree;
    var k := m + |Indent(format, tabs)|;
    var c := k + |StringText(x.key)|;
    MemberLayout(x, last, format, tabs, s, m);
    StringReadsBack(s, k, x.key);
    SkipTo(s, c, c);
    SkipTo(s, c + 1, c + |AfterKey(format)|);
  }

  /** Where the text of the member's value ends, and what the parser does there. */
  lemma MemberEnd(x: Member, last: bool, format: bool, tabs: nat, s: seq<byte>, m: nat, close: nat)
    requires NulFree(x.key) && Printable(x.value) && At(s, m, MemberText(x, last, format, tabs))
    requires last ==> Sees(s, close, CLOSE_BRACE) && Blank(s, m + |MemberText(x, last, format, tabs)|, close)
    requires last && !format ==> close == m + |MemberText(x, last, format, tabs)|
    ensures var e := ColonAt(x, format, tabs, m) + |AfterKey(format)| + |Text(x.value, format, tabs)|;
      Ends(s, e) && e + |AfterMember(format, last)| == m + |MemberText(x, last, format, tabs)| &&
      (if last then Skip(s, e) == close
       else Skip(s, e) == e && Sees(s, e, COMMA) && Blank(s, e + 1, m + |MemberText(x, last, format, tabs)|))
  {
    hide MemberText, Text, StringText, At, Indent, Printable, NulFree, AfterKey, AfterMember, Skip, NonBlank;
    var e := ColonAt(x, format, tabs, m) + |AfterKey(format)| + |Text(x.value, format, tabs)|;
    MemberLayout(x, last, format, tabs, s, m);
    AfterMemberBytes(s, e, format, last);
    if last {
      SkipTo(s, e, close);
    } else {
      SkipTo(s, e, e);
    }
  }

  lemma AfterMemberBytes(s: seq<byte>, e: nat, format: bool, last: bool)
    requires At(s, e, AfterMember(format, last))
    ensures !last ==> Sees(s, e, COMMA) && Blank(s, e + 1, e + |AfterMember(format, last)|)
    ensures last && format ==> Sees(s, e, NEWLINE) && |AfterMember(format, last)| == 1
    ensures last && !format ==> AfterMember(format, last) == []
  {
    var t := AfterMember(format, last);
    if |t| > 0 {
      AtByte(s, e, t, 0);
    }
    if |t| > 1 {
      AtByte(s, e, t, 1);
    }
  }

  /** The loop of `parse_object`, entered at `off`, with the text of the members at `m` and the brace at `close`. */
  lemma {:induction false} MembersReadBack(members: seq<Member>, format: bool, tabs: nat, s: seq<byte>, off: nat,
                                           m: nat, close: nat, depth: nat)
    requires PrintableMembers(members) && members != [] && depth <= NESTING_LIMIT
    requires off < |s| && Skip(s, off + 1) == m + |Indent(format, tabs)|
    requires At(s, m, MembersText(members, format, tabs)) && Sees(s, close, CLOSE_BRACE)
    requires Blank(s, m + |MembersText(members, format, tabs)|, close)
    requires format || close == m + |MembersText(members, format, tabs)|
    ensures ComesBack(Members(s, off, depth), members, close + 1, depth + NestingOfMembers(members) <= NESTING_LIMIT)
    decreases members, 0
  {
    hide MembersText, MemberText, Text, StringText, Value, Key, Members, Indent, AfterMember, AfterKey, At, Skip,
         NonBlank, NulFree, Printable, ColonAt, Ends, Nesting, NestingOfMembers, ComesBack, Blank;
    var x, last := members[0], |members| == 1;
    var t := MemberText(x, last, format, tabs);
    var c := ColonAt(x, format, tabs, m);
    var w := c + |AfterKey(format)|;
    var e := w + |Text(x.value, format, tabs)|;
    MembersTextParts(members, format, tabs);
    AtSplit(s, m, t, MembersText(members[1..], format, tabs));
    if last {
      LastMember(members, format, tabs);
    }
    KeyReadsBack(x, last, format, tabs, s, off, m);
    MemberEnd(x, last, format, tabs, s, m, close);
    ValueReadsBack(x.value, format, tabs, s, w, depth);
    if !last {
      MembersFirstByte(members[1..], format, tabs, s, m + |t|);
      BlankJoin(s, e + 1, m + |t|, m + |t| + |Indent(format, tabs)|);
      SkipTo(s, e + 1, m + |t| + |Indent(format, tabs)|);
      MembersReadBack(members[1..], format, tabs, s, e, m + |t|, close, depth);
    }
    MembersAssemble(members, s, off, c, w, e, close, depth);
  }

  lemma BlankJoin(s: seq<byte>, p: nat, q: nat, r: nat)
    requires Blank(s, p, q) && Blank(s, q, r)
    ensures Blank(s, p, r)
  {
  }

  /** One turn of the loop of `parse_object`, and the rest of the turns. */
  lemma MembersAssemble(members: seq<Member>, s: seq<byte>, off: nat, c: nat, w: nat, e: nat, close: nat, depth: nat)
    requires members != [] && depth <= NESTING_LIMIT && off < |s| && e <= |s|
    requires Key(s, off) == Parsed(members[0].key, c) && c < |s| && Skip(s, c + 1) == w
    requires ComesBack(Value(s, w, depth), members[0].value, e, depth + Nesting(members[0].value) <= NESTING_LIMIT)
    requires |members| == 1 ==> Skip(s, e) == close && Sees(s, close, CLOSE_BRACE)
    requires |members| > 1 ==> Skip(s, e) == e && Sees(s, e, COMMA)
    requires |members| > 1 ==>
      ComesBack(Members(s, e, depth), members[1..], close + 1, depth + NestingOfMembers(members[1..]) <= NESTING_LIMIT)
    ensures ComesBack(Members(s, off, depth), members, close + 1, depth + NestingOfMembers(members) <= NESTING_LIMIT)
  {
    hide Value, Key, Skip, Nesting;
    var x := members[0];
    assert x == Member(x.key, x.value);
    if |members| == 1 {
      assert members[1..] == [] && NestingOfMembers([]) == 0;
      assert members == [x];
      assert Members(s, off, depth) == match Value(s, w, depth)
        case Failed(at) => Failed(at)
        case Parsed(v, at) => Parsed([Member(x.key, v)], close + 1);
    } else {
      assert members == [x] + members[1..];
    }
  }

  lemma MembersTextParts(members: seq<Member>, format: bool, tabs: nat)
    requires PrintableMembers(members) && members != []
    ensures NulFree(members[0].key) && Printable(members[0].value) && PrintableMembers(members[1..])
    ensures MembersText(members, format, tabs) ==
            MemberText(members[0], |members| == 1, format, tabs) + MembersText(members[1..], format, tabs)
  {
  }

  lemma LastMember(members: seq<Member>, format: bool, tabs: nat)
    requires |members| == 1 && PrintableMembers(members)
    ensures members == [members[0]] && NestingOfMembers(members) == Nesting(members[0].value)
    ensures MembersText(members, format, tabs) == MemberText(members[0], true, format, tabs)
  {
    assert members[1..] == [];
    assert NestingOfMembers([]) == 0;
  }

  // ---------------------------------------------------------------- whole texts

  /** Parse undoes print: for every printable tree, formatted or not, parsing the C string that was
      printed succeeds exactly when the nesting is within the limit, and then it gives back the same
      tree and stops at the terminating NUL. */
  lemma ParseUndoesPrint(v: Json, format: bool)
    requires Printable(v)
    ensures var text := Text(v, format, 0);
      ComesBack(Parse(text + [0], true), v, |text|, Nesting(v) <= NESTING_LIMIT)
  {
    hide Value, Text, Skip, NonBlank, SkipBom, Nesting, At, Ends;
    var text := Text(v, format, 0);
    var s := text + [0];
    StartsVisible(v, format, s);
    EndsInNul(text, s);
    ValueReadsBack(v, format, 0, s, 0, 0);
  }

  /** No byte order mark and no blank stands in front of a printed text. */
  lemma StartsVisible(v: Json, format: bool, s: seq<byte>)
    requires Printable(v) && s == Text(v, format, 0) + [0]
    ensures SkipBom(s) == 0 && Skip(s, 0) == 0 && At(s, 0, Text(v, format, 0))
  {
    hide Text, Skip, NonBlank, Printable;
    var text := Text(v, format, 0);
    FirstByte(v, format, 0);
    assert s[0..|text|] == text;
    assert s[0] == text[0];
    if |s| > 4 {
      assert s[..3][0] == s[0];
    }
    SkipTo(s, 0, 0);
  }

  /** Behind it stands the NUL, where skipping stays. */
  lemma EndsInNul(text: seq<byte>, s: seq<byte>)
    requires s == text + [0]
    ensures Ends(s, |text|) && Skip(s, |text|) == |text| && Sees(s, |text|, 0)
  {
    assert s[|text|] == 0;
    assert NonBlank(s, |s|) == |s|;
  }
}
