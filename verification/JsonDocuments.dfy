/** JSON texts (RFC 8259): documents whose tokens are those of the grammar, written out with any blanks
    between them. Every such text is parsed to the tree it stands for. */
module JsonDocuments {
  import opened Bytes
  import opened JsonTree
  import opened JsonText
  import opened JsonParse
  import opened JsonRoundTrip
  import opened JsonGrammar
  import JsonString
  import JsonNumber
  import JsonNumberGrammar

  // ---------------------------------------------------------------- texts

  predicate AllBlank(t: seq<byte>) {
    forall i :: 0 <= i < |t| ==> t[i] <= 32
  }

  /** A string token: a literal of section 7 in its quotes, and the C string it stands for. */
  ghost predicate StringToken(t: seq<byte>, k: seq<byte>) {
    |t| >= 2 && t[0] == 34 && t[|t| - 1] == 34 &&
    var meaning := JsonString.Meaning(t[1..|t| - 1]);
    meaning.Some? && k == CString(meaning.value)
  }

  /** A number token: a numeral of section 6 of at most 63 characters, and what it is worth. */
  ghost predicate NumberToken(t: seq<byte>, x: real) {
    exists n :: JsonNumberGrammar.Wellformed(n) && |JsonNumberGrammar.NumeralText(n)| <= 63 &&
                t == JsonNumberGrammar.NumeralText(n) && x == JsonNumberGrammar.Worth(n)
  }

  ghost predicate IsJson(d: Doc)
    decreases d, 0
  {
    match d
    case Leaf(t, Null) => t == Ascii("null")
    case Leaf(t, False) => t == Ascii("false")
    case Leaf(t, True) => t == Ascii("true")
    case Leaf(t, Number(x)) => NumberToken(t, x)
    case Leaf(t, String(k)) => StringToken(t, k)
    case Leaf(_, _) => false
    case List(inner, elements) => if elements == [] then AllBlank(inner) else AllElements(elements)
    case Record(inner, fields) => if fields == [] then AllBlank(inner) else AllFields(fields)
  }

  ghost predicate AllElements(elements: seq<Element>)
    decreases elements
  {
    elements == [] ||
    (AllBlank(elements[0].before) && IsJson(elements[0].doc) && AllBlank(elements[0].after) &&
     AllElements(elements[1..]))
  }

  ghost predicate AllFields(fields: seq<Field>)
    decreases fields
  {
    fields == [] ||
    (AllBlank(fields[0].before) && StringToken(fields[0].key, fields[0].name) && AllBlank(fields[0].beforeColon) &&
     AllBlank(fields[0].afterColon) && IsJson(fields[0].doc) && AllBlank(fields[0].after) && AllFields(fields[1..]))
  }

  /** The text: brackets, braces, colons and commas where they belong, and the blanks. */
  function Flat(d: Doc): seq<byte>
    decreases d, 0
  {
    match d
    case Leaf(t, _) => t
    case List(inner, elements) => Ascii("[") + (if elements == [] then inner else FlatElements(elements)) + Ascii("]")
    case Record(inner, fields) => Ascii("{") + (if fields == [] then inner else FlatFields(fields)) + Ascii("}")
  }

  function FlatElements(elements: seq<Element>): seq<byte>
    decreases elements
  {
    if elements == [] then []
    else
      var x := elements[0];
      x.before + Flat(x.doc) + x.after + if |elements| == 1 then [] else Ascii(",") + FlatElements(elements[1..])
  }

  function FlatFields(fields: seq<Field>): seq<byte>
    decreases fields
  {
    if fields == [] then []
    else
      var f := fields[0];
      (f.before + f.key + f.beforeColon + Ascii(":")) + (f.afterColon + Flat(f.doc) + f.after) +
      if |fields| == 1 then [] else Ascii(",") + FlatFields(fields[1..])
  }

  // ---------------------------------------------------------------- a text is a document in a buffer

  lemma Signs()
    ensures Ascii("[") == [91] && Ascii("]") == [93] && Ascii("{") == [123] && Ascii("}") == [125]
    ensures Ascii(",") == [44] && Ascii(":") == [58]
  {
  }

  lemma {:induction false} SizeIsLength(d: Doc)
    ensures Size(d) == |Flat(d)|
    decreases d, 1
  {
    match d
    case Leaf(_, _) =>
    case List(inner, elements) => ElementsLength(elements);
    case Record(inner, fields) => FieldsLength(fields);
  }

  lemma {:induction false} ElementsLength(elements: seq<Element>)
    ensures SizeOfElements(elements) == |FlatElements(elements)|
    decreases elements, 0
  {
    hide Size, Flat;
    if elements != [] {
      SizeIsLength(elements[0].doc);
      ElementsLength(elements[1..]);
    }
  }

  lemma {:induction false} FieldsLength(fields: seq<Field>)
    ensures SizeOfFields(fields) == |FlatFields(fields)|
    decreases fields, 0
  {
    hide Size, Flat;
    if fields != [] {
      SizeIsLength(fields[0].doc);
      FieldsLength(fields[1..]);
    }
  }

  lemma BlankStands(s: seq<byte>, p: nat, t: seq<byte>)
    requires At(s, p, t) && AllBlank(t)
    ensures BlankAt(s, p, t)
  {
    forall i | p <= i < p + |t| ensures s[i] <= SPACE {
      AtByte(s, p, t, i - p);
    }
  }

  /** Behind blanks and a comma or a closing bracket no number goes on. */
  lemma NumberStops(s: seq<byte>, a: nat, after: seq<byte>)
    requires BlankAt(s, a, after)
    requires Sees(s, a + |after|, 44) || Sees(s, a + |after|, 93) || Sees(s, a + |after|, 125)
    ensures JsonNumberGrammar.NumberEnds(s, a)
  {
  }

  lemma NumberStands(s: seq<byte>, p: nat, t: seq<byte>, x: real)
    requires NumberToken(t, x) && At(s, p, t) && JsonNumberGrammar.NumberEnds(s, p + |t|)
    ensures LeafReads(s, p, |t|, Number(x))
  {
    hide JsonNumberGrammar.NumeralText, JsonNumberGrammar.Wellformed, JsonNumberGrammar.Worth, JsonNumber.ParseNumber;
    var n :| JsonNumberGrammar.Wellformed(n) && |JsonNumberGrammar.NumeralText(n)| <= 63 &&
      t == JsonNumberGrammar.NumeralText(n) && x == JsonNumberGrammar.Worth(n);
    JsonNumberGrammar.NumeralIsRead(s, p, n);
    FirstOfNumeral(n);
    AtByte(s, p, t, 0);
  }

  lemma FirstOfNumeral(n: JsonNumberGrammar.Numeral)
    requires JsonNumberGrammar.Wellformed(n)
    ensures var t := JsonNumberGrammar.NumeralText(n);
      |t| > 0 && (t[0] == 45 || 48 <= t[0] <= 57)
  {
  }

  lemma StringStands(s: seq<byte>, p: nat, t: seq<byte>, k: seq<byte>)
    requires StringToken(t, k) && At(s, p, t)
    ensures p < |s| && JsonString.ParseString(s, p) == JsonString.StringOk(k, p + |t|)
  {
    hide JsonString.ParseString, JsonString.Meaning, CString;
    var literal := t[1..|t| - 1];
    assert t == [QUOTE] + literal + [QUOTE];
    JsonString.MeaningParses(s, p, literal);
  }

  lemma LeafStands(s: seq<byte>, p: nat, t: seq<byte>, v: Json)
    requires IsJson(Leaf(t, v)) && At(s, p, t) && JsonNumberGrammar.NumberEnds(s, p + |t|)
    ensures LeafReads(s, p, |t|, v)
  {
    hide JsonString.ParseString, JsonNumber.ParseNumber, NumberToken, StringToken;
    match v
    case Number(x) => NumberStands(s, p, t, x);
    case String(k) => StringStands(s, p, t, k);
    case _ =>
  }

  /** A text anywhere in a buffer stands there as a document. */
  lemma {:induction false} TextStands(d: Doc, s: seq<byte>, p: nat)
    requires IsJson(d) && At(s, p, Flat(d)) && JsonNumberGrammar.NumberEnds(s, p + |Flat(d)|)
    ensures Stands(s, p, d)
    decreases d, 1
  {
    hide LeafReads, ElementsStand, FieldsStand, At, FlatElements, FlatFields, AllElements, AllFields, SizeOfElements,
         SizeOfFields, NumberToken, StringToken;
    SizeIsLength(d);
    Signs();
    match d
    case Leaf(t, v) => LeafStands(s, p, t, v);
    case List(inner, elements) =>
      var x := if elements == [] then inner else FlatElements(elements);
      InBrackets(s, p, 91, x, 93);
      if elements == [] {
        BlankStands(s, p + 1, inner);
      } else {
        ElementsText(elements, s, p + 1);
      }
    case Record(inner, fields) =>
      var x := if fields == [] then inner else FlatFields(fields);
      InBrackets(s, p, 123, x, 125);
      if fields == [] {
        BlankStands(s, p + 1, inner);
      } else {
        FieldsText(fields, s, p + 1);
      }
  }

  lemma InBrackets(s: seq<byte>, p: nat, open: byte, x: seq<byte>, close: byte)
    requires At(s, p, [open] + x + [close])
    ensures Sees(s, p, open) && At(s, p + 1, x) && Sees(s, p + 1 + |x|, close)
  {
    hide At;
    AtThree(s, p, [open], x, [close]);
    AtByte(s, p, [open], 0);
    AtByte(s, p + 1 + |x|, [close], 0);
  }

  lemma {:induction false} ElementsText(elements: seq<Element>, s: seq<byte>, q: nat)
    requires elements != [] && AllElements(elements) && At(s, q, FlatElements(elements))
    requires Sees(s, q + |FlatElements(elements)|, 93)
    ensures ElementsStand(s, q, elements)
    decreases elements, 0
  {
    hide Stands, At, Flat, FlatElements, IsJson, Size, BlankAt, AllBlank, JsonNumberGrammar.NumberEnds;
    var x := elements[0];
    var v := q + |x.before|;
    var a := v + |Flat(x.doc)|;
    var e := a + |x.after|;
    SizeIsLength(x.doc);
    ElementsPieces(elements, s, q);
    BlankStands(s, q, x.before);
    BlankStands(s, a, x.after);
    NumberStops(s, a, x.after);
    TextStands(x.doc, s, v);
    if |elements| > 1 {
      ElementsText(elements[1..], s, e + 1);
    }
  }

  /** Where the pieces of the first element stand, and what follows it. */
  lemma ElementsPieces(elements: seq<Element>, s: seq<byte>, q: nat)
    requires elements != [] && At(s, q, FlatElements(elements))
    ensures var x := elements[0];
      var v := q + |x.before|;
      var a := v + |Flat(x.doc)|;
      var e := a + |x.after|;
      At(s, q, x.before) && At(s, v, Flat(x.doc)) && At(s, a, x.after) &&
      (|elements| == 1 ==> e == q + |FlatElements(elements)|) &&
      (|elements| > 1 ==> Sees(s, e, 44) && At(s, e + 1, FlatElements(elements[1..])) &&
                          e + 1 + |FlatElements(elements[1..])| == q + |FlatElements(elements)|)
  {
    hide At, Flat;
    var x := elements[0];
    var tail := if |elements| == 1 then [] else Ascii(",") + FlatElements(elements[1..]);
    Signs();
    Pieces(s, q, FlatElements(elements), x.before, Flat(x.doc), x.after, tail);
    if |elements| > 1 {
      Comma(s, q + |x.before| + |Flat(x.doc)| + |x.after|, FlatElements(elements[1..]));
    }
  }

  lemma Comma(s: seq<byte>, e: nat, rest: seq<byte>)
    requires At(s, e, [44] + rest)
    ensures Sees(s, e, 44) && At(s, e + 1, rest)
  {
    hide At;
    AtSplit(s, e, [44], rest);
    AtByte(s, e, [44], 0);
  }

  lemma {:induction false} FieldsText(fields: seq<Field>, s: seq<byte>, q: nat)
    requires fields != [] && AllFields(fields) && At(s, q, FlatFields(fields))
    requires Sees(s, q + |FlatFields(fields)|, 125)
    ensures FieldsStand(s, q, fields)
    decreases fields, 0
  {
    hide Stands, At, Flat, FlatFields, IsJson, Size, BlankAt, AllBlank, JsonNumberGrammar.NumberEnds, KeyStands,
         StringToken;
    var f := fields[0];
    var w := q + Head(f) + 1;
    var v := w + |f.afterColon|;
    var a := v + |Flat(f.doc)|;
    var e := a + |f.after|;
    SizeIsLength(f.doc);
    FieldsPieces(fields, s, q);
    KeyText(s, q, f);
    BlankStands(s, w, f.afterColon);
    BlankStands(s, a, f.after);
    NumberStops(s, a, f.after);
    TextStands(f.doc, s, v);
    if |fields| > 1 {
      FieldsText(fields[1..], s, e + 1);
    }
  }

  lemma KeyText(s: seq<byte>, q: nat, f: Field)
    requires AllBlank(f.before) && StringToken(f.key, f.name) && AllBlank(f.beforeColon)
    requires At(s, q, f.before + f.key + f.beforeColon + [58])
    ensures KeyStands(s, q, f)
  {
    hide At, StringToken, JsonString.ParseString, AllBlank, BlankAt;
    Pieces(s, q, f.before + f.key + f.beforeColon + [58], f.before, f.key, f.beforeColon, [58]);
    BlankStands(s, q, f.before);
    StringStands(s, q + |f.before|, f.key, f.name);
    BlankStands(s, q + |f.before| + |f.key|, f.beforeColon);
    AtByte(s, q + Head(f), [58], 0);
  }

  lemma FieldsPieces(fields: seq<Field>, s: seq<byte>, q: nat)
    requires fields != [] && At(s, q, FlatFields(fields))
    ensures var f := fields[0];
      var w := q + Head(f) + 1;
      var v := w + |f.afterColon|;
      var a := v + |Flat(f.doc)|;
      var e := a + |f.after|;
      At(s, q, f.before + f.key + f.beforeColon + [58]) &&
      At(s, w, f.afterColon) && At(s, v, Flat(f.doc)) && At(s, a, f.after) &&
      (|fields| == 1 ==> e == q + |FlatFields(fields)|) &&
      (|fields| > 1 ==> Sees(s, e, 44) && At(s, e + 1, FlatFields(fields[1..])) &&
                        e + 1 + |FlatFields(fields[1..])| == q + |FlatFields(fields)|)
  {
    hide At, Flat, FlatFields;
    var f := fields[0];
    var head, body := f.before + f.key + f.beforeColon + [58], f.afterColon + Flat(f.doc) + f.after;
    var tail := if |fields| == 1 then [] else [44] + FlatFields(fields[1..]);
    FlatFieldsParts(fields);
    AtThree(s, q, head, body, tail);
    AtThree(s, q + |head|, f.afterColon, Flat(f.doc), f.after);
    if |fields| > 1 {
      Comma(s, q + |head| + |body|, FlatFields(fields[1..]));
    }
  }

  lemma FlatFieldsParts(fields: seq<Field>)
    requires fields != []
    ensures var f := fields[0];
      FlatFields(fields) == f.before + f.key + f.beforeColon + [58] + (f.afterColon + Flat(f.doc) + f.after) +
                            if |fields| == 1 then [] else [44] + FlatFields(fields[1..])
  {
    hide Flat;
    Signs();
  }

  // ---------------------------------------------------------------- whole texts

  function Mark(bom: bool): seq<byte> {
    if bom then [0xEF, 0xBB, 0xBF] else []
  }

  /** The value of a text is reached behind its byte order mark and its blanks. */
  lemma ValueInText(s: seq<byte>, d: Doc, bom: bool, lead: seq<byte>, trail: seq<byte>)
    requires IsJson(d) && AllBlank(lead) && s == Mark(bom) + lead + Flat(d) + trail && (bom ==> |s| > 4)
    requires JsonNumberGrammar.NumberEnds(s, |s| - |trail|)
    ensures s != [] && SkipBom(s) <= |s| && Skip(s, SkipBom(s)) <= |s|
    ensures ComesBack(Value(s, Skip(s, SkipBom(s)), 0), Tree(d), |s| - |trail|, Nesting(Tree(d)) <= 1000)
  {
    hide Value, Skip, SkipBom, Stands, At, Flat, Tree, Nesting, IsJson, AllBlank, ComesBack;
    hide JsonNumberGrammar.NumberEnds;
    var b := |Mark(bom)|;
    var p := b + |lead|;
    TextPlaces(s, bom, lead, d, trail);
    TextStands(d, s, p);
    SizeIsLength(d);
    StandingParses(d, s, p, 0);
    Starts(s, p, d);
    MarkIsSkipped(s, bom);
    SkipTo(s, b, p);
  }

  /** Insignificant whitespace: every JSON text with any blanks, with or without a byte order mark, is
      parsed to its tree and to the terminating NUL, exactly if it nests at most 1000 deep. */
  lemma TextParses(d: Doc, bom: bool, lead: seq<byte>, trail: seq<byte>)
    requires IsJson(d) && AllBlank(lead) && AllBlank(trail)
    ensures var text := Mark(bom) + lead + Flat(d) + trail;
      ComesBack(Parse(text + [0], true), Tree(d), |text|, Nesting(Tree(d)) <= 1000)
  {
    hide Value, Skip, SkipBom, At, Flat, Tree, Nesting, IsJson, AllBlank, Parse, ComesBack;
    hide JsonNumberGrammar.NumberEnds;
    var text := Mark(bom) + lead + Flat(d) + trail;
    var s := text + [0];
    assert s == Mark(bom) + lead + Flat(d) + (trail + [0]) by {
      Regroup(Mark(bom) + lead + Flat(d), trail, [0]);
    }
    TextPlaces(s, bom, lead, d, trail + [0]);
    SkipsToEnd(s, |text| - |trail|, trail);
    TextIsNotEmpty(d);
    ValueInText(s, d, bom, lead, trail + [0]);
    WholeParse(s, Tree(d), |text| - |trail|, Nesting(Tree(d)) <= 1000);
  }

  lemma TextIsNotEmpty(d: Doc)
    requires IsJson(d)
    ensures Flat(d) != []
  {
    hide Flat, IsJson, At, Stands;
    WholeText(Flat(d));
    TextStands(d, Flat(d), 0);
    Starts(Flat(d), 0, d);
  }

  lemma WholeParse(s: seq<byte>, v: Json, a: nat, fits: bool)
    requires s != [] && SkipBom(s) <= |s| && Skip(s, SkipBom(s)) <= |s| && a <= |s|
    requires ComesBack(Value(s, Skip(s, SkipBom(s)), 0), v, a, fits)
    ensures ComesBack(Parse(s, false), v, a, fits)
    ensures Skip(s, a) == |s| - 1 && Sees(s, |s| - 1, 0) ==> ComesBack(Parse(s, true), v, |s| - 1, fits)
  {
    hide Value, Skip, SkipBom;
  }

  /** Without the demand for a NUL the offset stays behind the value. A byte order mark is skipped in texts
      of more than four bytes only. */
  lemma OpenTextParses(d: Doc, bom: bool, lead: seq<byte>, trail: seq<byte>)
    requires IsJson(d) && AllBlank(lead) && AllBlank(trail)
    ensures var text := Mark(bom) + lead + Flat(d) + trail;
      ComesBack(Parse(text, false), Tree(d), |text| - |trail|, Nesting(Tree(d)) <= 1000 && (bom ==> |text| > 4))
  {
    hide Value, Skip, SkipBom, At, Flat, Tree, Nesting, IsJson, AllBlank, Parse;
    hide JsonNumberGrammar.NumberEnds;
    var s := Mark(bom) + lead + Flat(d) + trail;
    TextPlaces(s, bom, lead, d, trail);
    if bom && |s| <= 4 {
      MarkIsNoValue(s);
    } else {
      NumberStopsAtEnd(s, |s| - |trail|, trail);
      ValueInText(s, d, bom, lead, trail);
      WholeParse(s, Tree(d), |s| - |trail|, Nesting(Tree(d)) <= 1000);
    }
  }

  /** Where the parts of a text are. */
  lemma TextPlaces(s: seq<byte>, bom: bool, lead: seq<byte>, d: Doc, trail: seq<byte>)
    requires s == Mark(bom) + lead + Flat(d) + trail && AllBlank(lead)
    ensures var p := |Mark(bom)| + |lead|;
      At(s, 0, Mark(bom)) && Blank(s, |Mark(bom)|, p) && At(s, p, Flat(d)) && At(s, p + |Flat(d)|, trail) &&
      |s| == p + |Flat(d)| + |trail|
  {
    hide Flat, AllBlank, Mark;
    WholeText(s);
    Pieces(s, 0, s, Mark(bom), lead, Flat(d), trail);
    BlankStands(s, |Mark(bom)|, lead);
  }

  lemma WholeText(s: seq<byte>)
    ensures At(s, 0, s)
  {
  }

  lemma MarkIsSkipped(s: seq<byte>, bom: bool)
    requires At(s, 0, Mark(bom)) && (bom ==> |s| > 4) && (!bom ==> s != [] && s[0] < 128)
    ensures SkipBom(s) == |Mark(bom)|
  {
    if !bom && |s| > 4 {
      assert s[..3][0] == s[0];
    }
    if bom {
      assert s[..3] == s[0..3];
    }
  }

  lemma MarkIsNoValue(s: seq<byte>)
    requires At(s, 0, Mark(true)) && |s| <= 4
    ensures Parse(s, false).Failed?
  {
    hide ArrayAt, ObjectAt, JsonString.ParseString, JsonNumber.ParseNumber, Skip;
    AtByte(s, 0, Mark(true), 0);
    SkipTo(s, 0, 0);
    NotAConstant(s, 0);
  }

  /** Skipping goes over trailing blanks and the NUL, and steps back onto it. */
  lemma SkipsToEnd(s: seq<byte>, a: nat, trail: seq<byte>)
    requires At(s, a, trail + [0]) && |s| == a + |trail| + 1 && AllBlank(trail)
    ensures Skip(s, a) == |s| - 1 && Sees(s, |s| - 1, 0) && JsonNumberGrammar.NumberEnds(s, a)
  {
    BlankStands(s, a, trail + [0]);
    AtByte(s, a, trail + [0], |trail|);
    BlankToEnd(s, a);
  }

  lemma {:induction false} BlankToEnd(s: seq<byte>, a: nat)
    requires Blank(s, a, |s|)
    ensures NonBlank(s, a) == |s|
    decreases |s| - a
  {
    if a < |s| {
      BlankToEnd(s, a + 1);
    }
  }

  lemma NumberStopsAtEnd(s: seq<byte>, a: nat, trail: seq<byte>)
    requires At(s, a, trail) && |s| == a + |trail| && AllBlank(trail)
    ensures JsonNumberGrammar.NumberEnds(s, a)
  {
    if trail != [] {
      AtByte(s, a, trail, 0);
    }
  }

  /** With the demand for a NUL, a text is accepted exactly if it is, but for a byte order mark, blanks, a
      document that nests at most 1000 deep, and blanks up to a NUL at its very end. */
  lemma ParseIsDocument(s: seq<byte>, v: Json, at: nat)
    ensures Parse(s, true) == Parsed(v, at) <==>
            s != [] && at == |s| - 1 && s[at] == 0 && Nesting(v) <= 1000 &&
            exists p: nat, d :: Blank(s, SkipBom(s), p) && Stands(s, p, d) && Tree(d) == v && Ends(s, p, d)
  {
    hide Value, Skip, SkipBom, Stands, Tree, Nesting, Size, Blank, Ends;
    if Parse(s, true) == Parsed(v, at) {
      var p := Skip(s, SkipBom(s));
      var d := Spelling(s, p, 0);
      StandingParses(d, s, p, 0);
      Starts(s, p, d);
      SkippedIsBlank(s, SkipBom(s));
      NulIsAtEnd(s, p + Size(d));
      EndsThere(s, p, d);
    }
    if s != [] && at == |s| - 1 && s[at] == 0 && Nesting(v) <= 1000 &&
       exists p: nat, d :: Blank(s, SkipBom(s), p) && Stands(s, p, d) && Tree(d) == v && Ends(s, p, d)
    {
      var p: nat, d :| Blank(s, SkipBom(s), p) && Stands(s, p, d) && Tree(d) == v && Ends(s, p, d);
      Starts(s, p, d);
      SkipTo(s, SkipBom(s), p);
      StandingParses(d, s, p, 0);
      EndsThere(s, p, d);
      NulFound(s, p + Size(d));
    }
  }

  /** Nothing but blanks, the final NUL among them, follows the document. */
  ghost predicate Ends(s: seq<byte>, p: nat, d: Doc) {
    p + Size(d) < |s| && Blank(s, p + Size(d), |s|)
  }

  lemma EndsThere(s: seq<byte>, p: nat, d: Doc)
    ensures Ends(s, p, d) <==> p + Size(d) < |s| && Blank(s, p + Size(d), |s|)
  {
  }

  lemma {:induction false} NulIsAtEnd(s: seq<byte>, a: nat)
    requires a <= |s| && Sees(s, Skip(s, a), 0)
    ensures a < |s| && Skip(s, a) == |s| - 1 && Blank(s, a, |s|)
  {
    BlankUpTo(s, a);
  }

  lemma {:induction false} BlankUpTo(s: seq<byte>, a: nat)
    requires a <= |s|
    ensures Blank(s, a, NonBlank(s, a))
    decreases |s| - a
  {
    if a < |s| && s[a] <= SPACE {
      BlankUpTo(s, a + 1);
    }
  }

  lemma NulFound(s: seq<byte>, a: nat)
    requires a < |s| && Blank(s, a, |s|)
    ensures Skip(s, a) == |s| - 1
  {
    BlankToEnd(s, a);
  }
}
