/** What minification drops: of a document with spaces and comments between its tokens exactly those, so
    that its tokens are left. Strings must not end in a backslash, for the reason given in
    JsonMinifyLaws. */
module JsonMinifyDocuments {
  import opened Bytes
  import opened JsonText
  import opened JsonMinify
  import opened JsonGrammar
  import D = JsonDocuments
  import L = JsonMinifyLaws
  import JsonString

  // ---------------------------------------------------------------- spaces and comments

  datatype Ignored = Space(b: byte) | LineComment(text: seq<byte>) | BlockComment(text: seq<byte>)

  /** A space, tab, return or newline; a comment from two slashes to the end of its line; a comment between
      slash-star and the first star-slash. */
  ghost predicate Ignorable(x: Ignored) {
    match x
    case Space(b) => b == 32 || b == 9 || b == 13 || b == 10
    case LineComment(t) => forall i :: 0 <= i < |t| ==> t[i] != 10
    case BlockComment(t) => NoEnd(t)
  }

  ghost predicate NoEnd(t: seq<byte>) {
    forall i :: 0 <= i < |t| - 1 ==> !(t[i] == 42 && t[i + 1] == 47)
  }

  function Written(x: Ignored): seq<byte> {
    match x
    case Space(b) => [b]
    case LineComment(t) => Ascii("//") + t + [10]
    case BlockComment(t) => Ascii("/*") + t + Ascii("*/")
  }

  function WrittenAll(xs: seq<Ignored>): seq<byte> {
    if xs == [] then [] else Written(xs[0]) + WrittenAll(xs[1..])
  }

  ghost predicate IsGap(t: seq<byte>) {
    exists xs :: Gap(xs, t)
  }

  ghost predicate Gap(xs: seq<Ignored>, t: seq<byte>) {
    (forall i :: 0 <= i < |xs| ==> Ignorable(xs[i])) && t == WrittenAll(xs)
  }

  lemma GapIsDropped(t: seq<byte>, rest: seq<byte>)
    requires IsGap(t)
    ensures Minified(t + rest) == Minified(rest)
  {
    hide Minified, WrittenAll, Ignorable;
    var xs :| Gap(xs, t);
    AllAreDropped(xs, rest);
  }

  lemma {:induction false} AllAreDropped(xs: seq<Ignored>, rest: seq<byte>)
    requires forall i :: 0 <= i < |xs| ==> Ignorable(xs[i])
    ensures Minified(WrittenAll(xs) + rest) == Minified(rest)
    decreases |xs|
  {
    hide Minified, Written, Ignorable;
    if xs == [] {
      assert [] + rest == rest;
    } else {
      forall i | 0 <= i < |xs[1..]| ensures Ignorable(xs[1..][i]) {
        assert xs[1..][i] == xs[i + 1];
      }
      AllAreDropped(xs[1..], rest);
      OneIsDropped(xs[0], WrittenAll(xs[1..]) + rest);
      Regroup(Written(xs[0]), WrittenAll(xs[1..]), rest);
    }
  }

  lemma Marks()
    ensures Ascii("//") == [47, 47] && Ascii("/*") == [47, 42] && Ascii("*/") == [42, 47]
  {
  }

  lemma OneIsDropped(x: Ignored, rest: seq<byte>)
    requires Ignorable(x)
    ensures Minified(Written(x) + rest) == Minified(rest)
  {
    hide Minified, AfterLine, AfterBlock;
    Marks();
    match x
    case Space(b) => SpaceIsDropped(b, rest);
    case LineComment(t) =>
      LineComments(t, [10] + rest);
      LineEnds(t, rest);
      Regroup([47, 47], t, [10]);
      Regroup([47, 47] + t, [10], rest);
      Regroup([47, 47], t, [10] + rest);
    case BlockComment(t) =>
      BlockComments(t, [42, 47] + rest);
      BlockEnds(t, rest);
      Regroup([47, 42], t, [42, 47]);
      Regroup([47, 42] + t, [42, 47], rest);
      Regroup([47, 42], t, [42, 47] + rest);
  }

  lemma SpaceIsDropped(b: byte, rest: seq<byte>)
    requires b == 32 || b == 9 || b == 13 || b == 10
    ensures Minified([b] + rest) == Minified(rest)
  {
    assert ([b] + rest)[1..] == rest;
  }

  lemma LineComments(t: seq<byte>, rest: seq<byte>)
    ensures Minified([47, 47] + (t + rest)) == AfterLine(t + rest)
  {
    assert ([47, 47] + (t + rest))[2..] == t + rest;
  }

  lemma BlockComments(t: seq<byte>, rest: seq<byte>)
    ensures Minified([47, 42] + (t + rest)) == AfterBlock(t + rest)
  {
    assert ([47, 42] + (t + rest))[2..] == t + rest;
  }

  lemma {:induction false} LineEnds(t: seq<byte>, rest: seq<byte>)
    requires forall i :: 0 <= i < |t| ==> t[i] != 10
    ensures AfterLine(t + ([10] + rest)) == Minified(rest)
    ensures AfterLine(t) == []
    decreases |t|
  {
    var s := t + ([10] + rest);
    if t == [] {
      assert s[1..] == rest;
    } else {
      LineEnds(t[1..], rest);
      assert s[1..] == t[1..] + ([10] + rest);
    }
  }

  lemma {:induction false} BlockEnds(t: seq<byte>, rest: seq<byte>)
    requires NoEnd(t)
    ensures AfterBlock(t + ([42, 47] + rest)) == Minified(rest)
    ensures AfterBlock(t) == []
    decreases |t|
  {
    var s := t + ([42, 47] + rest);
    if t == [] {
      assert s[2..] == rest;
    } else {
      BlockEnds(t[1..], rest);
      assert s[1..] == t[1..] + ([42, 47] + rest);
      assert s[0] == t[0] && s[1] == if |t| > 1 then t[1] else 42;
    }
  }

  /** A comment that is not ended takes everything that follows it with it. */
  lemma OpenComments(t: seq<byte>)
    ensures (forall i :: 0 <= i < |t| ==> t[i] != 10) ==> Minified(Ascii("//") + t) == []
    ensures NoEnd(t) ==> Minified(Ascii("/*") + t) == []
  {
    hide Minified, AfterLine, AfterBlock;
    Marks();
    LineComments(t, []);
    BlockComments(t, []);
    assert t + [] == t;
    if forall i :: 0 <= i < |t| ==> t[i] != 10 {
      LineEnds(t, []);
    }
    if NoEnd(t) {
      BlockEnds(t, []);
    }
  }

  /** A slash that begins no comment is dropped alone. */
  lemma LoneSlash(rest: seq<byte>)
    requires rest == [] || (rest[0] != 47 && rest[0] != 42)
    ensures Minified([47] + rest) == Minified(rest)
  {
    assert ([47] + rest)[1..] == rest;
  }

  // ---------------------------------------------------------------- tokens

  /** A string token that minification copies: a literal of the grammar that does not end in a backslash. */
  ghost predicate StringKept(t: seq<byte>) {
    |t| >= 2 && t[0] == 34 && t[|t| - 1] == 34 && JsonString.Grammar(t[1..|t| - 1]) && t[|t| - 2] != 92
  }

  ghost predicate TokenKept(t: seq<byte>) {
    L.Plain(t) || StringKept(t)
  }

  lemma TokenIsKept(t: seq<byte>, rest: seq<byte>)
    requires TokenKept(t)
    ensures Minified(t + rest) == t + Minified(rest)
  {
    hide Minified, Quoted, JsonString.Grammar;
    if L.Plain(t) {
      L.PlainIsKept(t, rest);
    } else {
      var literal := t[1..|t| - 1];
      assert t == [QUOTE] + (literal + [QUOTE]);
      assert literal != [] ==> literal[|literal| - 1] == t[|t| - 2];
      LiteralIsKept(literal, rest);
      L.QuoteIsKept(literal + [QUOTE] + rest);
      L.QuoteIsKept(rest);
      Regroup([QUOTE], literal + [QUOTE], rest);
      Regroup([QUOTE], literal + [QUOTE], Minified(rest));
      Regroup(literal, [QUOTE], rest);
      Regroup(literal, [QUOTE], Minified(rest));
    }
  }

  /** A string that is not closed is copied to the end. */
  lemma {:induction false} OpenStringIsKept(t: seq<byte>)
    requires forall i :: 0 <= i < |t| ==> t[i] != 34
    ensures Minified([34] + t) == [34] + t
  {
    hide Quoted;
    assert ([34] + t)[1..] == t;
    NoQuoteIsCopied(t);
  }

  lemma {:induction false} NoQuoteIsCopied(t: seq<byte>)
    requires forall i :: 0 <= i < |t| ==> t[i] != 34
    ensures Quoted(t) == t
    decreases |t|
  {
    if t != [] {
      NoQuoteIsCopied(t[1..]);
      assert [t[0]] + t[1..] == t;
    }
  }

  /** Inside a string a literal is copied, if a quote follows it. */
  lemma {:induction false} LiteralIsKept(literal: seq<byte>, rest: seq<byte>)
    requires JsonString.Grammar(literal) && (literal != [] ==> literal[|literal| - 1] != BACKSLASH)
    ensures Quoted(literal + ([QUOTE] + rest)) == literal + Quoted([QUOTE] + rest)
    decreases |literal|
  {
    hide Quoted, JsonString.IsHex4, JsonString.Step;
    var follow := [QUOTE] + rest;
    if literal == [] {
      assert [] + follow == follow && [] + Quoted(follow) == Quoted(follow);
    } else {
      var k := JsonString.Step(literal);
      var first, more := literal[..k], literal[k..];
      assert literal == first + more;
      LiteralIsKept(more, rest);
      StepIsKept(literal, more + follow);
      Regroup(first, more, follow);
      Regroup(first, more, Quoted(follow));
    }
  }

  /** One character, escape or unit of the literal. */
  lemma StepIsKept(literal: seq<byte>, next: seq<byte>)
    requires literal != [] && JsonString.Step(literal) > 0 && JsonString.Grammar(literal)
    requires literal[|literal| - 1] != BACKSLASH
    requires next != [] && (JsonString.Step(literal) < |literal| ==> next[0] == literal[JsonString.Step(literal)])
    ensures var first := literal[..JsonString.Step(literal)];
      Quoted(first + next) == first + Quoted(next)
  {
    hide Quoted, JsonString.IsHex4, JsonString.Step, JsonString.Grammar;
    var k := JsonString.Step(literal);
    var first := literal[..k];
    StepBytes(literal);
    if k == 1 {
      assert first == [literal[0]];
      L.ByteIsKept(literal[0], next);
    } else if k == 2 {
      assert first == [BACKSLASH, literal[1]];
      if literal[1] == QUOTE {
        L.QuoteIsKept(next);
      } else {
        NextIsNoQuote(literal);
        L.PairIsKept(literal[1], next);
      }
    } else {
      UnitBytes(first);
      L.ControlIsKept(first, next);
    }
  }

  lemma StepBytes(literal: seq<byte>)
    requires literal != [] && JsonString.Step(literal) > 0
    ensures var k := JsonString.Step(literal);
      (k == 1 || k == 2 || k == 6) && literal[0] != QUOTE && (k == 1 <==> literal[0] != BACKSLASH) &&
      (k == 6 ==> literal[..6][0] == BACKSLASH && literal[..6][1] == 117 && JsonString.IsHex4(literal[..6][2..6]))
  {
    hide JsonString.IsHex4;
    if JsonString.Step(literal) == 6 {
      assert literal[..6][2..6] == literal[2..6];
    }
  }

  /** The literal goes on, and not with a quote, unless the escape is not a backslash. */
  lemma NextIsNoQuote(literal: seq<byte>)
    requires JsonString.Grammar(literal) && JsonString.Step(literal) == 2 && literal[|literal| - 1] != BACKSLASH
    ensures literal[1] == BACKSLASH ==> |literal| > 2 && literal[2] != QUOTE
  {
    hide JsonString.IsHex4;
    if literal[1] == BACKSLASH {
      assert |literal| > 2;
      assert JsonString.Step(literal[2..]) > 0;
    }
  }

  lemma UnitBytes(u: seq<byte>)
    requires |u| == 6 && JsonString.IsHex4(u[2..6]) && u[1] == 117
    ensures forall i :: 1 <= i < 6 ==> u[i] != QUOTE && u[i] != BACKSLASH
  {
    var h := u[2..6];
    JsonString.HexIsPlain(h[0]);
    JsonString.HexIsPlain(h[1]);
    JsonString.HexIsPlain(h[2]);
    JsonString.HexIsPlain(h[3]);
    assert u[2] == h[0] && u[3] == h[1] && u[4] == h[2] && u[5] == h[3];
  }

  // ---------------------------------------------------------------- documents

  /** A document with spaces and comments in its gaps. */
  ghost predicate Commented(d: Doc)
    decreases d, 0
  {
    match d
    case Leaf(t, _) => TokenKept(t)
    case List(inner, elements) => if elements == [] then IsGap(inner) else CommentedElements(elements)
    case Record(inner, fields) => if fields == [] then IsGap(inner) else CommentedFields(fields)
  }

  ghost predicate CommentedElements(elements: seq<Element>)
    decreases elements
  {
    elements == [] ||
    (IsGap(elements[0].before) && Commented(elements[0].doc) && IsGap(elements[0].after) &&
     CommentedElements(elements[1..]))
  }

  ghost predicate CommentedFields(fields: seq<Field>)
    decreases fields
  {
    fields == [] ||
    (IsGap(fields[0].before) && TokenKept(fields[0].key) && IsGap(fields[0].beforeColon) &&
     IsGap(fields[0].afterColon) && Commented(fields[0].doc) && IsGap(fields[0].after) && CommentedFields(fields[1..]))
  }

  /** The document without its gaps. */
  function Bare(d: Doc): Doc
    decreases d, 0
  {
    match d
    case Leaf(_, _) => d
    case List(_, elements) => List([], BareElements(elements))
    case Record(_, fields) => Record([], BareFields(fields))
  }

  function BareElements(elements: seq<Element>): (r: seq<Element>)
    ensures |r| == |elements|
    decreases elements
  {
    if elements == [] then [] else [Element([], Bare(elements[0].doc), [])] + BareElements(elements[1..])
  }

  function BareFields(fields: seq<Field>): (r: seq<Field>)
    ensures |r| == |fields|
    decreases fields
  {
    if fields == [] then []
    else [Field([], fields[0].key, fields[0].name, [], [], Bare(fields[0].doc), [])] + BareFields(fields[1..])
  }

  lemma OtherBytesAreKept(b: byte, rest: seq<byte>)
    requires b != 9 && b != 10 && b != 13 && b != 32 && b != 34 && b != 47
    ensures Minified([b] + rest) == [b] + Minified(rest)
  {
    assert ([b] + rest)[1..] == rest;
  }

  /** Wherever the document stands, its tokens are left of it. */
  lemma {:induction false} DocumentMinifies(d: Doc, rest: seq<byte>)
    requires Commented(d)
    ensures Minified(D.Flat(d) + rest) == D.Flat(Bare(d)) + Minified(rest)
    decreases d, 1
  {
    hide Minified, D.FlatElements, D.FlatFields, CommentedElements, CommentedFields, IsGap, TokenKept, BareElements,
         BareFields;
    D.Signs();
    match d
    case Leaf(t, _) => TokenIsKept(t, rest);
    case List(inner, elements) =>
      if elements == [] {
        GapIsDropped(inner, [93] + rest);
        Enclosed(91, inner, [], 93, rest);
      } else {
        ElementsMinify(elements, [93] + rest);
        Enclosed(91, D.FlatElements(elements), D.FlatElements(BareElements(elements)), 93, rest);
      }
    case Record(inner, fields) =>
      if fields == [] {
        GapIsDropped(inner, [125] + rest);
        Enclosed(123, inner, [], 125, rest);
      } else {
        FieldsMinify(fields, [125] + rest);
        Enclosed(123, D.FlatFields(fields), D.FlatFields(BareFields(fields)), 125, rest);
      }
  }

  lemma Enclosed(open: byte, x: seq<byte>, y: seq<byte>, close: byte, rest: seq<byte>)
    requires (open == 91 && close == 93) || (open == 123 && close == 125)
    requires Minified(x + ([close] + rest)) == y + Minified([close] + rest)
    ensures Minified([open] + x + [close] + rest) == [open] + y + [close] + Minified(rest)
  {
    hide Minified;
    OtherBytesAreKept(open, x + ([close] + rest));
    OtherBytesAreKept(close, rest);
    Regroup([open] + x, [close], rest);
    Regroup([open], x, [close] + rest);
    Regroup([open] + y, [close], Minified(rest));
    Regroup([open], y, [close] + Minified(rest));
  }

  lemma NothingInFront(rest: seq<byte>)
    ensures Minified([] + rest) == [] + Minified(rest)
  {
    assert [] + rest == rest && [] + Minified(rest) == Minified(rest);
  }

  lemma {:induction false} ElementsMinify(elements: seq<Element>, rest: seq<byte>)
    requires elements != [] && CommentedElements(elements)
    ensures Minified(D.FlatElements(elements) + rest) == D.FlatElements(BareElements(elements)) + Minified(rest)
    decreases elements, 0
  {
    hide Minified, D.Flat, Bare, D.FlatElements, BareElements, IsGap, Commented;
    var x := elements[0];
    FirstElementFlat(elements);
    FirstElementBare(elements);
    D.Signs();
    if |elements| == 1 {
      NothingInFront(rest);
      DocumentMinifies(x.doc, x.after + ([] + rest));
      ElementMinifies(x.before, D.Flat(x.doc), D.Flat(Bare(x.doc)), x.after, [], [], rest);
    } else {
      var more, bare := D.FlatElements(elements[1..]), D.FlatElements(BareElements(elements[1..]));
      ElementsMinify(elements[1..], rest);
      CommaMinifies(more, bare, rest);
      DocumentMinifies(x.doc, x.after + ([44] + more + rest));
      ElementMinifies(x.before, D.Flat(x.doc), D.Flat(Bare(x.doc)), x.after, [44] + more, [44] + bare, rest);
    }
  }

  lemma FirstElementFlat(elements: seq<Element>)
    requires elements != []
    ensures D.FlatElements(elements) ==
            elements[0].before + D.Flat(elements[0].doc) + elements[0].after +
            if |elements| == 1 then [] else [44] + D.FlatElements(elements[1..])
  {
    D.Signs();
    hide D.Flat;
  }

  lemma FirstElementBare(elements: seq<Element>)
    requires elements != []
    ensures D.FlatElements(BareElements(elements)) ==
            [] + D.Flat(Bare(elements[0].doc)) + [] +
            if |elements| == 1 then [] else [44] + D.FlatElements(BareElements(elements[1..]))
  {
    D.Signs();
    hide D.Flat, Bare;
    var r := BareElements(elements);
    assert r[1..] == BareElements(elements[1..]);
  }

  lemma CommaMinifies(more: seq<byte>, bare: seq<byte>, rest: seq<byte>)
    requires Minified(more + rest) == bare + Minified(rest)
    ensures Minified([44] + more + rest) == [44] + bare + Minified(rest)
  {
    hide Minified;
    OtherBytesAreKept(44, more + rest);
    Regroup([44], more, rest);
    Regroup([44], bare, Minified(rest));
  }

  /** A value between two gaps, and what comes behind it. */
  lemma ElementMinifies(before: seq<byte>, doc: seq<byte>, bare: seq<byte>, after: seq<byte>, tail: seq<byte>,
                        bareTail: seq<byte>, rest: seq<byte>)
    requires IsGap(before) && IsGap(after)
    requires Minified(doc + (after + (tail + rest))) == bare + Minified(after + (tail + rest))
    requires Minified(tail + rest) == bareTail + Minified(rest)
    ensures Minified(before + doc + after + tail + rest) == [] + bare + [] + bareTail + Minified(rest)
  {
    hide Minified, IsGap;
    GapIsDropped(before, doc + (after + (tail + rest)));
    GapIsDropped(after, tail + rest);
    Regroup(before + doc + after, tail, rest);
    Regroup(before + doc, after, tail + rest);
    Regroup(before, doc, after + (tail + rest));
    Regroup(bare, bareTail, Minified(rest));
    assert [] + bare + [] == bare;
  }

  lemma {:induction false} FieldsMinify(fields: seq<Field>, rest: seq<byte>)
    requires fields != [] && CommentedFields(fields)
    ensures Minified(D.FlatFields(fields) + rest) == D.FlatFields(BareFields(fields)) + Minified(rest)
    decreases fields, 0
  {
    hide Minified, D.Flat, Bare, D.FlatFields, BareFields, IsGap, Commented, TokenKept;
    var f := fields[0];
    FirstFieldFlat(fields);
    FirstFieldBare(fields);
    if |fields| == 1 {
      NothingInFront(rest);
      DocumentMinifies(f.doc, f.after + ([] + rest));
      ElementMinifies(f.afterColon, D.Flat(f.doc), D.Flat(Bare(f.doc)), f.after, [], [], rest);
      FieldMinifies(f, f.afterColon + D.Flat(f.doc) + f.after, [] + D.Flat(Bare(f.doc)) + [], [], [], rest);
    } else {
      var more, bare := D.FlatFields(fields[1..]), D.FlatFields(BareFields(fields[1..]));
      FieldsMinify(fields[1..], rest);
      CommaMinifies(more, bare, rest);
      DocumentMinifies(f.doc, f.after + ([44] + more + rest));
      ElementMinifies(f.afterColon, D.Flat(f.doc), D.Flat(Bare(f.doc)), f.after, [44] + more, [44] + bare, rest);
      FieldMinifies(f, f.afterColon + D.Flat(f.doc) + f.after, [] + D.Flat(Bare(f.doc)) + [], [44] + more, [44] + bare,
                    rest);
    }
  }

  lemma FirstFieldFlat(fields: seq<Field>)
    requires fields != []
    ensures var f := fields[0];
      D.FlatFields(fields) ==
      (f.before + f.key + f.beforeColon + [58]) + (f.afterColon + D.Flat(f.doc) + f.after) +
      if |fields| == 1 then [] else [44] + D.FlatFields(fields[1..])
  {
    D.Signs();
    hide D.Flat;
  }

  lemma FirstFieldBare(fields: seq<Field>)
    requires fields != []
    ensures var f := fields[0];
      D.FlatFields(BareFields(fields)) ==
      ([] + f.key + [] + [58]) + ([] + D.Flat(Bare(f.doc)) + []) +
      if |fields| == 1 then [] else [44] + D.FlatFields(BareFields(fields[1..]))
  {
    D.Signs();
    hide D.Flat, Bare;
    var r := BareFields(fields);
    assert r[1..] == BareFields(fields[1..]);
  }

  /** A key between two gaps, its colon, and the rest of the member. */
  lemma FieldMinifies(f: Field, body: seq<byte>, bare: seq<byte>, tail: seq<byte>, bareTail: seq<byte>, rest: seq<byte>)
    requires IsGap(f.before) && TokenKept(f.key) && IsGap(f.beforeColon)
    requires Minified(body + tail + rest) == bare + bareTail + Minified(rest)
    ensures Minified((f.before + f.key + f.beforeColon + [58]) + body + tail + rest) ==
            ([] + f.key + [] + [58]) + bare + bareTail + Minified(rest)
  {
    hide Minified, IsGap, TokenKept;
    var x := body + tail + rest;
    GapIsDropped(f.before, f.key + (f.beforeColon + ([58] + x)));
    TokenIsKept(f.key, f.beforeColon + ([58] + x));
    GapIsDropped(f.beforeColon, [58] + x);
    OtherBytesAreKept(58, x);
    HeadJoins(f.before, f.key, f.beforeColon, body, tail, rest);
    BareJoins(f.key, bare, bareTail, Minified(rest));
  }

  lemma HeadJoins(a: seq<byte>, k: seq<byte>, b: seq<byte>, body: seq<byte>, tail: seq<byte>, rest: seq<byte>)
    ensures (a + k + b + [58]) + body + tail + rest == a + (k + (b + ([58] + (body + tail + rest))))
  {
    var h := a + k + b + [58];
    Regroup(h, body, tail);
    Regroup(h, body + tail, rest);
    Regroup(a + k + b, [58], body + tail + rest);
    Regroup(a + k, b, [58] + (body + tail + rest));
    Regroup(a, k, b + ([58] + (body + tail + rest)));
  }

  lemma BareJoins(k: seq<byte>, bare: seq<byte>, tail: seq<byte>, m: seq<byte>)
    ensures k + ([58] + (bare + tail + m)) == ([] + k + [] + [58]) + bare + tail + m
  {
    assert [] + k + [] == k;
    Regroup(k + [58], bare, tail);
    Regroup(k + [58], bare + tail, m);
    Regroup(k, [58], bare + tail + m);
  }

  /** Minifying leaves the tokens of a document, in their order and side by side, and nothing else. */
  lemma MinifyLeavesTokens(d: Doc, lead: seq<byte>, trail: seq<byte>)
    requires Commented(d) && IsGap(lead) && IsGap(trail)
    ensures Minified(lead + D.Flat(d) + trail) == D.Flat(Bare(d))
  {
    hide Minified, D.Flat, Bare, IsGap, Commented;
    DocumentMinifies(d, trail + []);
    GapIsDropped(lead, D.Flat(d) + (trail + []));
    GapIsDropped(trail, []);
    NothingMinifies();
    assert trail + [] == trail;
    Regroup(lead, D.Flat(d), trail);
    assert D.Flat(Bare(d)) + [] == D.Flat(Bare(d));
  }

  lemma NothingMinifies()
    ensures Minified([]) == []
  {
  }
}
