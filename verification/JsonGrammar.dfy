/** Which texts the parser accepts, stated without the parser (RFC 8259, section 2): a document is a tree
    of tokens with blanks before and after each of them. The parser accepts exactly the documents that
    nest at most 1000 deep, and gives the tree they stand for.

    Here the leaves of a document in a buffer are what the readers of strings and numbers take there;
    JsonString and JsonNumberGrammar say what those readers accept. */
module JsonGrammar {
  import opened Bytes
  import opened JsonTree
  import opened JsonText
  import opened JsonParse
  import opened JsonRoundTrip
  import JsonString
  import JsonNumber

  // ---------------------------------------------------------------- documents

  datatype Doc =
    | Leaf(token: seq<byte>, value: Json)
    | List(inner: seq<byte>, elements: seq<Element>)
    | Record(inner: seq<byte>, fields: seq<Field>)

  /** A value in an array with the blanks around it. */
  datatype Element = Element(before: seq<byte>, doc: Doc, after: seq<byte>)

  /** A member: blanks, the key as it is written, blanks, the colon, blanks, the value, blanks. */
  datatype Field =
    Field(before: seq<byte>, key: seq<byte>, name: seq<byte>, beforeColon: seq<byte>, afterColon: seq<byte>,
          doc: Doc, after: seq<byte>)

  /** The tree a document stands for. */
  function Tree(d: Doc): Json
    decreases d, 0
  {
    match d
    case Leaf(_, v) => v
    case List(_, elements) => Array(TreeOfElements(elements))
    case Record(_, fields) => Object(TreeOfFields(fields))
  }

  function TreeOfElements(elements: seq<Element>): seq<Json>
    decreases elements
  {
    if elements == [] then [] else [Tree(elements[0].doc)] + TreeOfElements(elements[1..])
  }

  function TreeOfFields(fields: seq<Field>): seq<Member>
    decreases fields
  {
    if fields == [] then [] else [Member(fields[0].name, Tree(fields[0].doc))] + TreeOfFields(fields[1..])
  }

  /** How many bytes it has. */
  function Size(d: Doc): nat
    decreases d, 0
  {
    match d
    case Leaf(t, _) => |t|
    case List(inner, elements) => 2 + if elements == [] then |inner| else SizeOfElements(elements)
    case Record(inner, fields) => 2 + if fields == [] then |inner| else SizeOfFields(fields)
  }

  function SizeOfElements(elements: seq<Element>): nat
    decreases elements
  {
    if elements == [] then 0
    else |elements[0].before| + Size(elements[0].doc) + |elements[0].after| +
         if |elements| == 1 then 0 else 1 + SizeOfElements(elements[1..])
  }

  /** From the start of a member to its colon. */
  function Head(f: Field): nat {
    |f.before| + |f.key| + |f.beforeColon|
  }

  function SizeOfFields(fields: seq<Field>): nat
    decreases fields
  {
    if fields == [] then 0
    else Head(fields[0]) + 1 + |fields[0].afterColon| + Size(fields[0].doc) + |fields[0].after| +
         if |fields| == 1 then 0 else 1 + SizeOfFields(fields[1..])
  }

  // ---------------------------------------------------------------- a document in a buffer

  ghost predicate BlankAt(s: seq<byte>, p: nat, t: seq<byte>) {
    At(s, p, t) && Blank(s, p, p + |t|)
  }

  /** What the readers of constants, numbers and strings take at `p`. */
  ghost predicate LeafReads(s: seq<byte>, p: nat, n: nat, v: Json) {
    p < |s| &&
    match v
    case Null => n == 4 && Reads(s, p, Ascii("null"))
    case False => n == 5 && Reads(s, p, Ascii("false"))
    case True => n == 4 && Reads(s, p, Ascii("true"))
    case Number(x) => (s[p] == 45 || 48 <= s[p] <= 57) && JsonNumber.ParseNumber(s, p) == JsonNumber.NumberOk(x, p + n)
    case String(k) => JsonString.ParseString(s, p) == JsonString.StringOk(k, p + n)
    case _ => false
  }

  ghost predicate Stands(s: seq<byte>, p: nat, d: Doc)
    decreases d, 0
  {
    match d
    case Leaf(t, v) => At(s, p, t) && LeafReads(s, p, |t|, v)
    case List(inner, elements) =>
      Sees(s, p, 91) && Sees(s, p + Size(d) - 1, 93) &&
      if elements == [] then BlankAt(s, p + 1, inner) else ElementsStand(s, p + 1, elements)
    case Record(inner, fields) =>
      Sees(s, p, 123) && Sees(s, p + Size(d) - 1, 125) &&
      if fields == [] then BlankAt(s, p + 1, inner) else FieldsStand(s, p + 1, fields)
  }

  ghost predicate ElementsStand(s: seq<byte>, q: nat, elements: seq<Element>)
    requires elements != []
    decreases elements
  {
    var x := elements[0];
    var v := q + |x.before|;
    var a := v + Size(x.doc);
    var e := a + |x.after|;
    BlankAt(s, q, x.before) && Stands(s, v, x.doc) && BlankAt(s, a, x.after) &&
    (|elements| > 1 ==> Sees(s, e, 44) && ElementsStand(s, e + 1, elements[1..]))
  }

  /** The key and the colon of a member. */
  ghost predicate KeyStands(s: seq<byte>, q: nat, f: Field) {
    var k := q + |f.before|;
    BlankAt(s, q, f.before) && k < |s| && At(s, k, f.key) &&
    JsonString.ParseString(s, k) == JsonString.StringOk(f.name, k + |f.key|) &&
    BlankAt(s, k + |f.key|, f.beforeColon) && Sees(s, q + Head(f), 58)
  }

  ghost predicate FieldsStand(s: seq<byte>, q: nat, fields: seq<Field>)
    requires fields != []
    decreases fields
  {
    var f := fields[0];
    var w := q + Head(f) + 1;
    var v := w + |f.afterColon|;
    var a := v + Size(f.doc);
    var e := a + |f.after|;
    KeyStands(s, q, f) && BlankAt(s, w, f.afterColon) && Stands(s, v, f.doc) && BlankAt(s, a, f.after) &&
    (|fields| > 1 ==> Sees(s, e, 44) && FieldsStand(s, e + 1, fields[1..]))
  }

  // ---------------------------------------------------------------- documents are parsed

  lemma ConstantTexts()
    ensures Ascii("null") == NULL_TEXT && Ascii("false") == FALSE_TEXT && Ascii("true") == TRUE_TEXT
  {
  }

  /** A document starts with a visible byte that closes nothing. */
  lemma Starts(s: seq<byte>, p: nat, d: Doc)
    requires Stands(s, p, d)
    ensures p < |s| && 32 < s[p] < 128 && s[p] != 93 && s[p] != 125
  {
    match d
    case Leaf(_, v) => LeafStarts(s, p, v);
    case List(_, _) =>
    case Record(_, _) =>
  }

  lemma LeafStarts(s: seq<byte>, p: nat, v: Json)
    requires exists n :: LeafReads(s, p, n, v)
    ensures p < |s| && 32 < s[p] < 128 && s[p] != 93 && s[p] != 125
    ensures v.Null? <==> s[p] == 110
    ensures v.False? <==> s[p] == 102
    ensures v.True? <==> s[p] == 116
    ensures v.String? <==> s[p] == 34
    ensures v.Number? <==> s[p] == 45 || 48 <= s[p] <= 57
  {
    hide JsonNumber.ParseNumber;
    match v
    case Null => assert s[p] == s[p..p + 4][0];
    case False => assert s[p] == s[p..p + 5][0];
    case True => assert s[p] == s[p..p + 4][0];
    case _ =>
  }

  lemma LeafParses(s: seq<byte>, p: nat, n: nat, v: Json, depth: nat)
    requires LeafReads(s, p, n, v) && depth <= NESTING_LIMIT
    ensures Value(s, p, depth) == Parsed(v, p + n)
  {
    hide JsonNumber.ParseNumber, JsonString.ParseString;
    LeafStarts(s, p, v);
    NotAConstant(s, p);
    ConstantTexts();
  }

  lemma {:induction false} StandingParses(d: Doc, s: seq<byte>, p: nat, depth: nat)
    requires Stands(s, p, d) && depth <= NESTING_LIMIT
    ensures ComesBack(Value(s, p, depth), Tree(d), p + Size(d), depth + Nesting(Tree(d)) <= 1000)
    decreases d, 1
  {
    hide Value, LeafReads, ElementsStand, FieldsStand, TreeOfElements, TreeOfFields, NestingOfItems, NestingOfMembers,
         SizeOfElements, SizeOfFields, BlankAt;
    match d
    case Leaf(t, v) =>
      LeafParses(s, p, |t|, v, depth);
      LeafIsFlat(s, p, |t|, v);
    case List(inner, elements) => ListParses(inner, elements, s, p, depth);
    case Record(inner, fields) => RecordParses(inner, fields, s, p, depth);
  }

  lemma LeafIsFlat(s: seq<byte>, p: nat, n: nat, v: Json)
    requires LeafReads(s, p, n, v)
    ensures Nesting(v) == 0
  {
    hide JsonNumber.ParseNumber, JsonString.ParseString;
  }

  lemma {:induction false} ListParses(inner: seq<byte>, elements: seq<Element>, s: seq<byte>, p: nat, depth: nat)
    requires Stands(s, p, List(inner, elements)) && depth <= NESTING_LIMIT
    ensures var v := Array(TreeOfElements(elements));
      ComesBack(Value(s, p, depth), v, p + Size(List(inner, elements)), depth + Nesting(v) <= 1000)
    decreases elements, 1
  {
    hide Value, Elements, ElementsStand, NestingOfItems, Skip, NonBlank, At, Stands;
    ListStands(s, p, inner, elements);
    ArrayCase(s, p, depth);
    if depth < NESTING_LIMIT {
      if elements == [] {
        NothingInside();
        SkipTo(s, p + 1, p + 1 + |inner|);
      } else {
        ElementsBegin(s, p, elements);
        ElementsParse(elements, s, p + |elements[0].before|, p + 1, depth + 1);
      }
    }
  }

  /** Behind the bracket the blanks in front of the first element are skipped. */
  lemma ElementsBegin(s: seq<byte>, p: nat, elements: seq<Element>)
    requires elements != [] && ElementsStand(s, p + 1, elements)
    ensures var v := p + 1 + |elements[0].before|;
      v < |s| && Skip(s, p + 1) == v == Skip(s, v) && !Sees(s, v, 93)
  {
    hide ElementsStand, Skip, NonBlank, At, Stands;
    var v := p + 1 + |elements[0].before|;
    FirstElement(s, p + 1, elements);
    SkipTo(s, p + 1, v);
    SkipTo(s, v, v);
  }

  lemma ListStands(s: seq<byte>, p: nat, inner: seq<byte>, elements: seq<Element>)
    requires Stands(s, p, List(inner, elements))
    ensures Sees(s, p, 91)
    ensures elements == [] ==> Blank(s, p + 1, p + 1 + |inner|) && Sees(s, p + 1 + |inner|, 93)
    ensures elements != [] ==> ElementsStand(s, p + 1, elements) && Sees(s, p + 1 + SizeOfElements(elements), 93)
    ensures Size(List(inner, elements)) == 2 + if elements == [] then |inner| else SizeOfElements(elements)
  {
    hide ElementsStand;
  }

  lemma NothingInside()
    ensures NestingOfItems([]) == 0 == NestingOfMembers([])
    ensures TreeOfElements([]) == [] && TreeOfFields([]) == []
  {
  }

  /** The parts of the first element, and what the parser skips in front of it. */
  lemma FirstElement(s: seq<byte>, q: nat, elements: seq<Element>)
    requires elements != [] && ElementsStand(s, q, elements)
    ensures var x := elements[0];
      var v := q + |x.before|;
      var a := v + Size(x.doc);
      Blank(s, q, v) && Stands(s, v, x.doc) && v < |s| && s[v] > 32 && s[v] != 93 && Blank(s, a, a + |x.after|)
  {
    hide At, Stands;
    var x := elements[0];
    Starts(s, q + |x.before|, x.doc);
  }

  lemma RestStands(s: seq<byte>, q: nat, elements: seq<Element>)
    requires |elements| > 1 && ElementsStand(s, q, elements)
    ensures var e := q + |elements[0].before| + Size(elements[0].doc) + |elements[0].after|;
      Sees(s, e, 44) && ElementsStand(s, e + 1, elements[1..]) &&
      q + SizeOfElements(elements) == e + 1 + SizeOfElements(elements[1..])
  {
    hide At, Stands, Size;
  }

  lemma LastElement(q: nat, elements: seq<Element>)
    requires |elements| == 1
    ensures q + SizeOfElements(elements) == q + |elements[0].before| + Size(elements[0].doc) + |elements[0].after|
    ensures TreeOfElements(elements) == [Tree(elements[0].doc)]
    ensures NestingOfItems(TreeOfElements(elements)) == Nesting(Tree(elements[0].doc))
  {
    assert elements[1..] == [];
    NothingInside();
    var t := TreeOfElements(elements);
    assert t[1..] == [];
    hide Nesting, Tree, Size;
  }

  lemma MoreElements(elements: seq<Element>)
    requires |elements| > 1
    ensures TreeOfElements(elements) == [Tree(elements[0].doc)] + TreeOfElements(elements[1..])
    ensures NestingOfItems(TreeOfElements(elements)) ==
            Max(Nesting(Tree(elements[0].doc)), NestingOfItems(TreeOfElements(elements[1..])))
  {
    var t := TreeOfElements(elements);
    assert t[1..] == TreeOfElements(elements[1..]);
    hide Nesting, Tree;
  }

  /** The loop of `parse_array`, entered at `off`, with the first element and its blanks at `q`. */
  lemma {:induction false} ElementsParse(elements: seq<Element>, s: seq<byte>, off: nat, q: nat, depth: nat)
    requires elements != [] && ElementsStand(s, q, elements) && depth <= NESTING_LIMIT
    requires off < |s| && Skip(s, off + 1) == q + |elements[0].before|
    requires Sees(s, q + SizeOfElements(elements), 93)
    ensures ComesBack(Elements(s, off, depth), TreeOfElements(elements), q + SizeOfElements(elements) + 1,
                      depth + NestingOfItems(TreeOfElements(elements)) <= 1000)
    decreases elements, 0
  {
    hide Value, Elements, ElementsStand, Stands, Nesting, NestingOfItems, Skip, NonBlank, Tree, TreeOfElements, Size,
         SizeOfElements, ComesBack, Blank;
    var x := elements[0];
    var v := q + |x.before|;
    var a := v + Size(x.doc);
    var e := a + |x.after|;
    FirstElement(s, q, elements);
    StandingParses(x.doc, s, v, depth);
    if |elements| == 1 {
      LastElement(q, elements);
      SkipTo(s, a, e);
      LastElementParses(s, off, v, a, e, depth, Tree(x.doc));
    } else {
      RestStands(s, q, elements);
      MoreElements(elements);
      SkipTo(s, a, e);
      FirstElement(s, e + 1, elements[1..]);
      SkipTo(s, e + 1, e + 1 + |elements[1].before|);
      ElementsParse(elements[1..], s, e, e + 1, depth);
      OneMoreElementParses(s, off, v, a, e, depth, Tree(x.doc), TreeOfElements(elements[1..]),
                           q + SizeOfElements(elements) + 1);
    }
  }

  lemma LastElementParses(s: seq<byte>, off: nat, v: nat, a: nat, e: nat, depth: nat, x: Json)
    requires off < |s| && depth <= NESTING_LIMIT && Skip(s, off + 1) == v && a <= |s| && v <= |s|
    requires ComesBack(Value(s, v, depth), x, a, depth + Nesting(x) <= 1000)
    requires Skip(s, a) == e && Sees(s, e, 93)
    ensures ComesBack(Elements(s, off, depth), [x], e + 1, depth + Nesting(x) <= 1000)
  {
    hide Value, Skip, Nesting;
  }

  lemma OneMoreElementParses(s: seq<byte>, off: nat, v: nat, a: nat, e: nat, depth: nat, x: Json, rest: seq<Json>,
                             end: nat)
    requires off < |s| && depth <= NESTING_LIMIT && Skip(s, off + 1) == v && a <= |s| && v <= |s|
    requires ComesBack(Value(s, v, depth), x, a, depth + Nesting(x) <= 1000)
    requires Skip(s, a) == e && Sees(s, e, 44)
    requires ComesBack(Elements(s, e, depth), rest, end, depth + NestingOfItems(rest) <= 1000)
    ensures ComesBack(Elements(s, off, depth), [x] + rest, end,
                      depth + Max(Nesting(x), NestingOfItems(rest)) <= 1000)
  {
    hide Value, Skip, Nesting, NestingOfItems;
  }

  // ---------------------------------------------------------------- objects

  lemma {:induction false} RecordParses(inner: seq<byte>, fields: seq<Field>, s: seq<byte>, p: nat, depth: nat)
    requires Stands(s, p, Record(inner, fields)) && depth <= NESTING_LIMIT
    ensures var v := Object(TreeOfFields(fields));
      ComesBack(Value(s, p, depth), v, p + Size(Record(inner, fields)), depth + Nesting(v) <= 1000)
    decreases fields, 1
  {
    hide Value, Members, FieldsStand, NestingOfMembers, Skip, NonBlank, At, Stands;
    RecordStands(s, p, inner, fields);
    ObjectCase(s, p, depth);
    if depth < NESTING_LIMIT {
      if fields == [] {
        NothingInside();
        SkipTo(s, p + 1, p + 1 + |inner|);
      } else {
        FieldsBegin(s, p, fields);
        FieldsParse(fields, s, p + |fields[0].before|, p + 1, depth + 1);
      }
    }
  }

  lemma FieldsBegin(s: seq<byte>, p: nat, fields: seq<Field>)
    requires fields != [] && FieldsStand(s, p + 1, fields)
    ensures var k := p + 1 + |fields[0].before|;
      k < |s| && Skip(s, p + 1) == k == Skip(s, k) && !Sees(s, k, 125)
  {
    hide FieldsStand, Skip, NonBlank, At, Stands;
    var k := p + 1 + |fields[0].before|;
    FirstField(s, p + 1, fields);
    SkipTo(s, p + 1, k);
    SkipTo(s, k, k);
  }

  lemma RecordStands(s: seq<byte>, p: nat, inner: seq<byte>, fields: seq<Field>)
    requires Stands(s, p, Record(inner, fields))
    ensures Sees(s, p, 123)
    ensures fields == [] ==> Blank(s, p + 1, p + 1 + |inner|) && Sees(s, p + 1 + |inner|, 125)
    ensures fields != [] ==> FieldsStand(s, p + 1, fields) && Sees(s, p + 1 + SizeOfFields(fields), 125)
    ensures Size(Record(inner, fields)) == 2 + if fields == [] then |inner| else SizeOfFields(fields)
  {
    hide FieldsStand;
  }

  lemma FirstField(s: seq<byte>, q: nat, fields: seq<Field>)
    requires fields != [] && FieldsStand(s, q, fields)
    ensures var f := fields[0];
      var k := q + |f.before|;
      var c := q + Head(f);
      var v := c + 1 + |f.afterColon|;
      var a := v + Size(f.doc);
      KeyStands(s, q, f) && Blank(s, q, k) && Sees(s, k, 34) && Sees(s, c, 58) && Blank(s, c + 1, v) &&
      Stands(s, v, f.doc) && v < |s| && s[v] > 32 && Blank(s, a, a + |f.after|)
  {
    hide At, Stands;
    var f := fields[0];
    Starts(s, q + Head(f) + 1 + |f.afterColon|, f.doc);
  }

  lemma MoreFieldsStand(s: seq<byte>, q: nat, fields: seq<Field>)
    requires |fields| > 1 && FieldsStand(s, q, fields)
    ensures var f := fields[0];
      var e := q + Head(f) + 1 + |f.afterColon| + Size(f.doc) + |f.after|;
      Sees(s, e, 44) && FieldsStand(s, e + 1, fields[1..]) &&
      q + SizeOfFields(fields) == e + 1 + SizeOfFields(fields[1..])
  {
    hide At, Stands, Size, KeyStands;
  }

  lemma LastField(q: nat, fields: seq<Field>)
    requires |fields| == 1
    ensures var f := fields[0];
      q + SizeOfFields(fields) == q + Head(f) + 1 + |f.afterColon| + Size(f.doc) + |f.after| &&
      TreeOfFields(fields) == [Member(f.name, Tree(f.doc))] &&
      NestingOfMembers(TreeOfFields(fields)) == Nesting(Tree(f.doc))
  {
    assert fields[1..] == [];
    NothingInside();
    var t := TreeOfFields(fields);
    assert t[1..] == [];
    hide Nesting, Tree, Size;
  }

  lemma MoreFields(fields: seq<Field>)
    requires |fields| > 1
    ensures TreeOfFields(fields) == [Member(fields[0].name, Tree(fields[0].doc))] + TreeOfFields(fields[1..])
    ensures NestingOfMembers(TreeOfFields(fields)) ==
            Max(Nesting(Tree(fields[0].doc)), NestingOfMembers(TreeOfFields(fields[1..])))
  {
    var t := TreeOfFields(fields);
    assert t[1..] == TreeOfFields(fields[1..]);
    hide Nesting, Tree;
  }

  /** The loop of `parse_object`, entered at `off`, with the first member and its blanks at `q`. */
  lemma {:induction false} FieldsParse(fields: seq<Field>, s: seq<byte>, off: nat, q: nat, depth: nat)
    requires fields != [] && FieldsStand(s, q, fields) && depth <= NESTING_LIMIT
    requires off < |s| && Skip(s, off + 1) == q + |fields[0].before|
    requires Sees(s, q + SizeOfFields(fields), 125)
    ensures ComesBack(Members(s, off, depth), TreeOfFields(fields), q + SizeOfFields(fields) + 1,
                      depth + NestingOfMembers(TreeOfFields(fields)) <= 1000)
    decreases fields, 0
  {
    hide Value, Members, Key, FieldsStand, KeyStands, Stands, Nesting, NestingOfMembers, Skip, NonBlank, Tree,
         TreeOfFields, Size, SizeOfFields, Head, ComesBack, Blank;
    var f := fields[0];
    var c := q + Head(f);
    var v := c + 1 + |f.afterColon|;
    var a := v + Size(f.doc);
    var e := a + |f.after|;
    FirstField(s, q, fields);
    KeyParses(s, off, q, f);
    SkipTo(s, c + 1, v);
    StandingParses(f.doc, s, v, depth);
    if |fields| == 1 {
      LastField(q, fields);
      SkipTo(s, a, e);
      LastFieldParses(s, off, c, v, a, e, depth, f.name, Tree(f.doc));
    } else {
      MoreFieldsStand(s, q, fields);
      MoreFields(fields);
      SkipTo(s, a, e);
      FirstField(s, e + 1, fields[1..]);
      SkipTo(s, e + 1, e + 1 + |fields[1].before|);
      FieldsParse(fields[1..], s, e, e + 1, depth);
      OneMoreFieldParses(s, off, c, v, a, e, depth, f.name, Tree(f.doc), TreeOfFields(fields[1..]),
                         q + SizeOfFields(fields) + 1);
    }
  }

  lemma KeyParses(s: seq<byte>, off: nat, q: nat, f: Field)
    requires off < |s| && Skip(s, off + 1) == q + |f.before| && KeyStands(s, q, f)
    ensures Key(s, off) == Parsed(f.name, q + Head(f))
  {
    hide Skip, NonBlank, JsonString.ParseString, At;
    SkipTo(s, q + |f.before| + |f.key|, q + Head(f));
  }

  lemma LastFieldParses(s: seq<byte>, off: nat, c: nat, v: nat, a: nat, e: nat, depth: nat, name: seq<byte>, x: Json)
    requires off < |s| && depth <= NESTING_LIMIT && c < |s| && a <= |s| && v <= |s|
    requires Key(s, off) == Parsed(name, c) && Skip(s, c + 1) == v
    requires ComesBack(Value(s, v, depth), x, a, depth + Nesting(x) <= 1000)
    requires Skip(s, a) == e && Sees(s, e, 125)
    ensures ComesBack(Members(s, off, depth), [Member(name, x)], e + 1, depth + Nesting(x) <= 1000)
  {
    hide Value, Skip, Nesting, Key;
  }

  lemma OneMoreFieldParses(s: seq<byte>, off: nat, c: nat, v: nat, a: nat, e: nat, depth: nat, name: seq<byte>, x: Json,
                           rest: seq<Member>, end: nat)
    requires off < |s| && depth <= NESTING_LIMIT && c < |s| && a <= |s| && v <= |s|
    requires Key(s, off) == Parsed(name, c) && Skip(s, c + 1) == v
    requires ComesBack(Value(s, v, depth), x, a, depth + Nesting(x) <= 1000)
    requires Skip(s, a) == e && Sees(s, e, 44)
    requires ComesBack(Members(s, e, depth), rest, end, depth + NestingOfMembers(rest) <= 1000)
    ensures ComesBack(Members(s, off, depth), [Member(name, x)] + rest, end,
                      depth + Max(Nesting(x), NestingOfMembers(rest)) <= 1000)
  {
    hide Value, Skip, Nesting, NestingOfMembers, Key;
  }

  // ---------------------------------------------------------------- what is parsed is a document

  /** If skipping stops on a visible byte, it skipped blanks only. */
  lemma {:induction false} SkippedIsBlank(s: seq<byte>, p: nat)
    requires p <= |s| && Skip(s, p) < |s| && s[Skip(s, p)] > 32
    ensures Blank(s, p, Skip(s, p))
    decreases |s| - p
  {
    StopsAtVisible(s, p);
    if s[p] <= SPACE {
      SkippedIsBlank(s, p + 1);
    }
  }

  lemma StopsAtVisible(s: seq<byte>, p: nat)
    requires p <= |s| && Skip(s, p) < |s| && s[Skip(s, p)] > 32
    ensures p < |s|
    ensures s[p] <= SPACE ==> p + 1 < |s| && Skip(s, p + 1) == Skip(s, p)
    ensures s[p] > SPACE ==> Skip(s, p) == p
  {
    if p < |s| && s[p] <= SPACE {
      AllBlankStaysAtEnd(s, p);
    }
  }

  lemma {:induction false} AllBlankStaysAtEnd(s: seq<byte>, p: nat)
    requires p < |s| && s[p] <= SPACE
    ensures NonBlank(s, p) == NonBlank(s, p + 1)
    ensures NonBlank(s, p) == |s| ==> s[|s| - 1] <= SPACE
    decreases |s| - p
  {
    if p + 1 < |s| && s[p + 1] <= SPACE {
      AllBlankStaysAtEnd(s, p + 1);
    }
  }

  lemma SkipTwice(s: seq<byte>, p: nat)
    requires p <= |s|
    ensures Skip(s, Skip(s, p)) == Skip(s, p)
  {
    var q := Skip(s, p);
    if q < |s| && s[q] <= SPACE {
      assert q == |s| - 1;
      assert NonBlank(s, |s|) == |s|;
    }
  }

  lemma SliceStands(s: seq<byte>, p: nat, q: nat)
    requires p <= q <= |s|
    ensures At(s, p, s[p..q])
    ensures Blank(s, p, q) ==> BlankAt(s, p, s[p..q])
  {
  }

  /** Every text that is parsed is a document that stands for what was parsed. */
  lemma {:induction false} Spelling(s: seq<byte>, off: nat, depth: nat) returns (d: Doc)
    requires off <= |s| && depth <= NESTING_LIMIT && Value(s, off, depth).Parsed?
    ensures Stands(s, off, d) && Value(s, off, depth) == Parsed(Tree(d), off + Size(d))
    decreases NESTING_LIMIT - depth, 1, 0
  {
    hide Elements, Members, ElementsStand, FieldsStand, At, JsonString.ParseString, JsonNumber.ParseNumber;
    var r := Value(s, off, depth);
    ConstantTexts();
    if r.value.Array? {
      ArrayWasSeen(s, off, depth);
      d := ArraySpelling(s, off, depth);
    } else if r.value.Object? {
      ObjectWasSeen(s, off, depth);
      d := ObjectSpelling(s, off, depth);
    } else {
      d := Leaf(s[off..r.at], r.value);
      SliceStands(s, off, r.at);
      LeafWasRead(s, off, depth);
    }
  }

  lemma ArrayWasSeen(s: seq<byte>, off: nat, depth: nat)
    requires off <= |s| && depth <= NESTING_LIMIT && Value(s, off, depth).Parsed? && Value(s, off, depth).value.Array?
    ensures Sees(s, off, 91) && Value(s, off, depth) == ArrayAt(s, off, depth)
  {
    hide ArrayAt, Members, JsonString.ParseString, JsonNumber.ParseNumber;
  }

  lemma ObjectWasSeen(s: seq<byte>, off: nat, depth: nat)
    requires off <= |s| && depth <= NESTING_LIMIT && Value(s, off, depth).Parsed? && Value(s, off, depth).value.Object?
    ensures Sees(s, off, 123) && Value(s, off, depth) == ObjectAt(s, off, depth)
  {
    hide ObjectAt, Elements, JsonString.ParseString, JsonNumber.ParseNumber;
  }

  lemma LeafWasRead(s: seq<byte>, off: nat, depth: nat)
    requires off <= |s| && depth <= NESTING_LIMIT && Value(s, off, depth).Parsed?
    requires !Value(s, off, depth).value.Array? && !Value(s, off, depth).value.Object?
    ensures LeafReads(s, off, Value(s, off, depth).at - off, Value(s, off, depth).value)
  {
    hide Elements, Members, JsonString.ParseString, JsonNumber.ParseNumber;
    ConstantTexts();
  }

  lemma {:induction false} ArraySpelling(s: seq<byte>, off: nat, depth: nat) returns (d: Doc)
    requires Sees(s, off, 91) && depth <= NESTING_LIMIT && ArrayAt(s, off, depth).Parsed?
    ensures Stands(s, off, d) && ArrayAt(s, off, depth) == Parsed(Tree(d), off + Size(d))
    decreases NESTING_LIMIT - depth, 0, 0
  {
    hide Elements, ElementsStand, At, Skip, NonBlank;
    var p := Skip(s, off + 1);
    if Sees(s, p, 93) {
      SkippedIsBlank(s, off + 1);
      SliceStands(s, off + 1, p);
      d := List(s[off + 1..p], []);
    } else {
      SkipTwice(s, off + 1);
      var elements := ElementsSpelling(s, p - 1, depth + 1, off + 1);
      d := List([], elements);
    }
  }

  lemma ElementsTurn(s: seq<byte>, off: nat, depth: nat)
    requires off < |s| && depth <= NESTING_LIMIT && Elements(s, off, depth).Parsed?
    ensures var r := Value(s, Skip(s, off + 1), depth);
      r.Parsed? &&
      var e := Skip(s, r.at);
      if Sees(s, e, COMMA) then
        Elements(s, e, depth).Parsed? &&
        Elements(s, off, depth) == Parsed([r.value] + Elements(s, e, depth).value, Elements(s, e, depth).at)
      else Sees(s, e, 93) && Elements(s, off, depth) == Parsed([r.value], e + 1)
  {
    hide Value, Skip;
  }

  lemma ElementsJoin(x: Element, rest: seq<Element>)
    requires rest != []
    ensures ([x] + rest)[1..] == rest
    ensures TreeOfElements([x] + rest) == [Tree(x.doc)] + TreeOfElements(rest)
    ensures SizeOfElements([x] + rest) == |x.before| + Size(x.doc) + |x.after| + 1 + SizeOfElements(rest)
    ensures TreeOfElements([x]) == [Tree(x.doc)]
    ensures SizeOfElements([x]) == |x.before| + Size(x.doc) + |x.after|
  {
    hide Tree, Size;
    assert ([x] + rest)[1..] == rest;
    assert [x][1..] == [] && TreeOfElements([]) == [];
  }

  /** `start` is where the blanks in front of the first element begin. */
  lemma {:induction false} ElementsSpelling(s: seq<byte>, off: nat, depth: nat, start: nat)
    returns (elements: seq<Element>)
    requires off < |s| && depth <= NESTING_LIMIT && Elements(s, off, depth).Parsed?
    requires start <= |s| && Skip(s, start) == Skip(s, off + 1)
    ensures elements != [] && ElementsStand(s, start, elements) && Sees(s, start + SizeOfElements(elements), 93)
    ensures Elements(s, off, depth) == Parsed(TreeOfElements(elements), start + SizeOfElements(elements) + 1)
    decreases NESTING_LIMIT - depth, 2, |s| - off
  {
    hide Value, Elements, Stands, At, Skip, NonBlank, Tree, Size, TreeOfElements, SizeOfElements;
    ElementsTurn(s, off, depth);
    var v := Skip(s, off + 1);
    var doc := Spelling(s, v, depth);
    Starts(s, v, doc);
    SkippedIsBlank(s, start);
    SliceStands(s, start, v);
    var a := v + Size(doc);
    var e := Skip(s, a);
    SkippedIsBlank(s, a);
    SliceStands(s, a, e);
    var x := Element(s[start..v], doc, s[a..e]);
    if Sees(s, e, COMMA) {
      var rest := ElementsSpelling(s, e, depth, e + 1);
      elements := [x] + rest;
      ElementsJoin(x, rest);
    } else {
      elements := [x];
      ElementsJoin(x, [x]);
    }
  }

  lemma {:induction false} ObjectSpelling(s: seq<byte>, off: nat, depth: nat) returns (d: Doc)
    requires Sees(s, off, 123) && depth <= NESTING_LIMIT && ObjectAt(s, off, depth).Parsed?
    ensures Stands(s, off, d) && ObjectAt(s, off, depth) == Parsed(Tree(d), off + Size(d))
    decreases NESTING_LIMIT - depth, 0, 0
  {
    hide Members, FieldsStand, At, Skip, NonBlank;
    var p := Skip(s, off + 1);
    if Sees(s, p, 125) {
      SkippedIsBlank(s, off + 1);
      SliceStands(s, off + 1, p);
      d := Record(s[off + 1..p], []);
    } else {
      SkipTwice(s, off + 1);
      var fields := FieldsSpelling(s, p - 1, depth + 1, off + 1);
      d := Record([], fields);
    }
  }

  lemma KeyWasRead(s: seq<byte>, off: nat, depth: nat)
    requires off < |s| && depth <= NESTING_LIMIT && Members(s, off, depth).Parsed?
    ensures Key(s, off).Parsed?
  {
    hide Value, Skip, Key;
  }

  lemma ValueWasRead(s: seq<byte>, off: nat, depth: nat)
    requires off < |s| && depth <= NESTING_LIMIT && Members(s, off, depth).Parsed? && Key(s, off).Parsed?
    ensures Value(s, Skip(s, Key(s, off).at + 1), depth).Parsed?
  {
    hide Value, Skip, Key;
  }

  lemma MembersTurn(s: seq<byte>, off: nat, depth: nat, key: seq<byte>, c: nat, r: Result<Json>, e: nat)
    requires off < |s| && depth <= NESTING_LIMIT && Members(s, off, depth).Parsed?
    requires c < |s| && Key(s, off) == Parsed(key, c)
    requires Value(s, Skip(s, c + 1), depth) == r && Skip(s, r.at) == e
    ensures r.Parsed?
    ensures !Sees(s, e, COMMA) ==> Sees(s, e, 125) && Members(s, off, depth) == Parsed([Member(key, r.value)], e + 1)
    ensures Sees(s, e, COMMA) ==> Members(s, e, depth).Parsed?
    ensures Sees(s, e, COMMA) ==>
              Members(s, off, depth).value == [Member(key, r.value)] + Members(s, e, depth).value &&
              Members(s, off, depth).at == Members(s, e, depth).at
  {
    hide Value, Skip, Key;
  }

  lemma FieldsJoin(f: Field, rest: seq<Field>)
    requires rest != []
    ensures ([f] + rest)[1..] == rest
    ensures TreeOfFields([f] + rest) == [Member(f.name, Tree(f.doc))] + TreeOfFields(rest)
    ensures SizeOfFields([f] + rest) ==
            Head(f) + 1 + |f.afterColon| + Size(f.doc) + |f.after| + 1 + SizeOfFields(rest)
    ensures TreeOfFields([f]) == [Member(f.name, Tree(f.doc))]
    ensures SizeOfFields([f]) == Head(f) + 1 + |f.afterColon| + Size(f.doc) + |f.after|
  {
    hide Tree, Size, Head;
    assert ([f] + rest)[1..] == rest;
    assert [f][1..] == [] && TreeOfFields([]) == [];
  }

  lemma {:induction false} FieldsSpelling(s: seq<byte>, off: nat, depth: nat, start: nat)
    returns (fields: seq<Field>)
    requires off < |s| && depth <= NESTING_LIMIT && Members(s, off, depth).Parsed?
    requires start <= |s| && Skip(s, start) == Skip(s, off + 1)
    ensures fields != [] && FieldsStand(s, start, fields) && Sees(s, start + SizeOfFields(fields), 125)
    ensures Members(s, off, depth) == Parsed(TreeOfFields(fields), start + SizeOfFields(fields) + 1)
    decreases NESTING_LIMIT - depth, 2, |s| - off
  {
    hide Value, Members, Stands, At, Skip, NonBlank, Tree, Size, Key, KeyStands, TreeOfFields, SizeOfFields;
    KeyWasRead(s, off, depth);
    ValueWasRead(s, off, depth);
    var before, key, beforeColon := KeySpelling(s, off, start);
    var c := Key(s, off).at;
    var v := Skip(s, c + 1);
    var doc := Spelling(s, v, depth);
    Starts(s, v, doc);
    SkippedIsBlank(s, c + 1);
    SliceStands(s, c + 1, v);
    var a := v + Size(doc);
    var e := Skip(s, a);
    MembersTurn(s, off, depth, Key(s, off).value, c, Value(s, v, depth), e);
    SkippedIsBlank(s, a);
    SliceStands(s, a, e);
    var f := Field(before, key, Key(s, off).value, beforeColon, s[c + 1..v], doc, s[a..e]);
    KeySame(s, start, f);
    if Sees(s, e, COMMA) {
      var rest := FieldsSpelling(s, e, depth, e + 1);
      fields := [f] + rest;
      FieldsJoin(f, rest);
    } else {
      fields := [f];
      FieldsJoin(f, [f]);
    }
  }

  lemma KeySame(s: seq<byte>, q: nat, f: Field)
    requires KeyStands(s, q, Field(f.before, f.key, f.name, f.beforeColon, [], Leaf([], Null), []))
    ensures KeyStands(s, q, f) && Head(f) == |f.before| + |f.key| + |f.beforeColon|
  {
  }

  lemma KeySpelling(s: seq<byte>, off: nat, start: nat)
    returns (before: seq<byte>, key: seq<byte>, beforeColon: seq<byte>)
    requires off < |s| && Key(s, off).Parsed?
    requires start <= |s| && Skip(s, start) == Skip(s, off + 1)
    ensures KeyStands(s, start, Field(before, key, Key(s, off).value, beforeColon, [], Leaf([], Null), []))
    ensures Key(s, off).at == start + |before| + |key| + |beforeColon|
  {
    hide At, Skip, NonBlank, JsonString.ParseString;
    var k := Skip(s, off + 1);
    var r := JsonString.ParseString(s, k);
    KeyIsQuoted(s, k);
    SkippedIsBlank(s, start);
    SliceStands(s, start, k);
    SliceStands(s, k, r.at);
    var c := Skip(s, r.at);
    SkippedIsBlank(s, r.at);
    SliceStands(s, r.at, c);
    before, key, beforeColon := s[start..k], s[k..r.at], s[r.at..c];
  }

  lemma KeyIsQuoted(s: seq<byte>, k: nat)
    requires k < |s| && JsonString.ParseString(s, k).StringOk?
    ensures s[k] == 34
  {
  }

  // ---------------------------------------------------------------- exactly the documents

  /** The parser accepts, at any place and depth, exactly the documents that nest no deeper than the limit
      allows, and gives the tree they stand for and the offset behind them. */
  lemma ValueIsDocument(s: seq<byte>, off: nat, depth: nat, v: Json, at: nat)
    requires off <= |s| && depth <= NESTING_LIMIT
    ensures Value(s, off, depth) == Parsed(v, at) <==>
            exists d :: Stands(s, off, d) && Tree(d) == v && at == off + Size(d) && depth + Nesting(v) <= 1000
  {
    hide Value, Stands, Tree, Size, Nesting;
    if Value(s, off, depth) == Parsed(v, at) {
      var d := Spelling(s, off, depth);
      StandingParses(d, s, off, depth);
    }
    if exists d :: Stands(s, off, d) && Tree(d) == v && at == off + Size(d) && depth + Nesting(v) <= 1000 {
      var d :| Stands(s, off, d) && Tree(d) == v && at == off + Size(d) && depth + Nesting(v) <= 1000;
      StandingParses(d, s, off, depth);
    }
  }
}
