/** Where the parser stops on a text that it rejects, in terms of the documents of JsonGrammar: at the byte
    that begins no value, at the byte behind complete elements or members that is neither a comma nor the
    closing bracket, at the byte where the colon should be, or where the reader of a string stops. */
module JsonErrors {
  import opened Bytes
  import opened JsonTree
  import opened JsonText
  import opened JsonParse
  import opened JsonRoundTrip
  import opened JsonGrammar
  import JsonString
  import JsonNumber

  /** A byte that begins no value, and the end of the text. */
  lemma NoValueBegins(s: seq<byte>, p: nat, depth: nat)
    requires p <= |s| && depth <= NESTING_LIMIT
    requires !Reads(s, p, Ascii("null")) && !Reads(s, p, Ascii("false")) && !Reads(s, p, Ascii("true"))
    requires p < |s| ==> s[p] != 34 && s[p] != 45 && !(48 <= s[p] <= 57) && s[p] != 91 && s[p] != 123
    ensures Value(s, p, depth) == Failed(p)
  {
    ConstantTexts();
    hide ArrayAt, ObjectAt, JsonString.ParseString, JsonNumber.ParseNumber;
  }

  /** A bracket or brace inside 1000 open ones. */
  lemma TooDeep(s: seq<byte>, p: nat)
    requires Sees(s, p, 91) || Sees(s, p, 123)
    ensures Value(s, p, 1000) == Failed(p)
  {
    NotAConstant(s, p);
    hide Elements, Members, JsonString.ParseString, JsonNumber.ParseNumber;
  }

  /** A string that is rejected, and digits that are no number. */
  lemma BadLeaf(s: seq<byte>, p: nat, depth: nat)
    requires p < |s| && depth <= NESTING_LIMIT
    ensures s[p] == 34 && JsonString.ParseString(s, p).StringFail? ==>
              Value(s, p, depth) == Failed(JsonString.ParseString(s, p).at)
    ensures (s[p] == 45 || 48 <= s[p] <= 57) && JsonNumber.ParseNumber(s, p).NumberFail? ==>
              Value(s, p, depth) == Failed(p)
  {
    NotAConstant(s, p);
    hide ArrayAt, ObjectAt, JsonString.ParseString, JsonNumber.ParseNumber;
  }

  // ---------------------------------------------------------------- arrays

  /** Behind complete elements at `e`: a visible byte that does not belong there, or a comma and then a
      value that stops at `x`. */
  ghost predicate ElementsStop(s: seq<byte>, e: nat, depth: nat, x: nat)
    requires depth <= NESTING_LIMIT
  {
    e < |s| && s[e] > 32 && s[e] != 93 && if s[e] == 44 then Value(s, Skip(s, e + 1), depth) == Failed(x) else x == e
  }

  lemma {:induction false} ElementsFail(elements: seq<Element>, s: seq<byte>, off: nat, q: nat, depth: nat, x: nat)
    requires elements != [] && ElementsStand(s, q, elements) && depth <= NESTING_LIMIT
    requires off < |s| && Skip(s, off + 1) == q + |elements[0].before|
    requires depth + NestingOfItems(TreeOfElements(elements)) <= 1000
    requires ElementsStop(s, q + SizeOfElements(elements), depth, x)
    ensures Elements(s, off, depth) == Failed(x)
    decreases elements
  {
    hide Value, Elements, ElementsStand, Stands, Nesting, NestingOfItems, Skip, NonBlank, Tree, TreeOfElements, Size,
         SizeOfElements, Blank, ElementsStop;
    var el := elements[0];
    var v := q + |el.before|;
    var a := v + Size(el.doc);
    var e := a + |el.after|;
    FirstElement(s, q, elements);
    StandingParses(el.doc, s, v, depth);
    if |elements| == 1 {
      LastElement(q, elements);
      StopIsVisible(s, e, depth, x);
      SkipTo(s, a, e);
      LastElementStops(s, off, v, a, e, depth, x);
    } else {
      RestStands(s, q, elements);
      MoreElements(elements);
      SkipTo(s, a, e);
      FirstElement(s, e + 1, elements[1..]);
      SkipTo(s, e + 1, e + 1 + |elements[1].before|);
      ElementsFail(elements[1..], s, e, e + 1, depth, x);
      LaterElementStops(s, off, v, a, e, depth, x);
    }
  }

  lemma StopIsVisible(s: seq<byte>, e: nat, depth: nat, x: nat)
    requires depth <= NESTING_LIMIT && ElementsStop(s, e, depth, x)
    ensures e < |s| && s[e] > 32
  {
  }

  lemma LastElementStops(s: seq<byte>, off: nat, v: nat, a: nat, e: nat, depth: nat, x: nat)
    requires off < |s| && depth <= NESTING_LIMIT && Skip(s, off + 1) == v && v <= |s| && a <= |s|
    requires Value(s, v, depth).Parsed? && Value(s, v, depth).at == a && Skip(s, a) == e
    requires ElementsStop(s, e, depth, x)
    ensures Elements(s, off, depth) == Failed(x)
  {
    hide Value, Skip;
  }

  lemma LaterElementStops(s: seq<byte>, off: nat, v: nat, a: nat, e: nat, depth: nat, x: nat)
    requires off < |s| && depth <= NESTING_LIMIT && Skip(s, off + 1) == v && v <= |s| && a <= |s|
    requires Value(s, v, depth).Parsed? && Value(s, v, depth).at == a && Skip(s, a) == e && Sees(s, e, 44)
    requires Elements(s, e, depth) == Failed(x)
    ensures Elements(s, off, depth) == Failed(x)
  {
    hide Value, Skip;
  }

  lemma ArrayInside(s: seq<byte>, p: nat, depth: nat, v: nat, x: nat)
    requires Sees(s, p, 91) && depth < 1000 && v == Skip(s, p + 1) < |s| && !Sees(s, v, 93)
    requires Elements(s, v - 1, depth + 1) == Failed(x)
    ensures Value(s, p, depth) == Failed(x)
  {
    hide Value, Elements, Skip;
    ArrayCase(s, p, depth);
  }

  /** An array stops where its first value does, or behind any number of complete elements as described. */
  lemma ArrayStops(elements: seq<Element>, s: seq<byte>, p: nat, depth: nat, x: nat)
    requires Sees(s, p, 91) && depth < 1000
    requires elements == [] ==>
      !Sees(s, Skip(s, p + 1), 93) && Skip(s, p + 1) < |s| && Value(s, Skip(s, p + 1), depth + 1) == Failed(x)
    requires elements != [] ==>
      ElementsStand(s, p + 1, elements) && depth + 1 + NestingOfItems(TreeOfElements(elements)) <= 1000 &&
      ElementsStop(s, p + 1 + SizeOfElements(elements), depth + 1, x)
    ensures Value(s, p, depth) == Failed(x)
  {
    hide Value, Elements, ElementsStand, NestingOfItems, TreeOfElements, SizeOfElements, Skip, NonBlank, ElementsStop,
         Stands, Size;
    if elements == [] {
      SkipTwice(s, p + 1);
      FirstValueFails(s, Skip(s, p + 1) - 1, depth + 1, x);
      ArrayInside(s, p, depth, Skip(s, p + 1), x);
    } else {
      var v := p + 1 + |elements[0].before|;
      FirstElement(s, p + 1, elements);
      SkipTo(s, p + 1, v);
      SkipTo(s, v, v);
      ElementsFail(elements, s, v - 1, p + 1, depth + 1, x);
      ArrayInside(s, p, depth, v, x);
    }
  }

  lemma FirstValueFails(s: seq<byte>, off: nat, depth: nat, x: nat)
    requires off < |s| && depth <= NESTING_LIMIT && Value(s, Skip(s, off + 1), depth) == Failed(x)
    ensures Elements(s, off, depth) == Failed(x)
  {
    hide Value, Skip;
  }

  // ---------------------------------------------------------------- objects

  /** A member that stops at `x`, entered at `off`: in its key, where the colon should be, or in its value. */
  ghost predicate MemberStops(s: seq<byte>, off: nat, depth: nat, x: nat)
    requires off < |s| && depth <= NESTING_LIMIT
  {
    var k := Skip(s, off + 1);
    k < |s| &&
    match JsonString.ParseString(s, k)
    case StringFail(at) => x == at
    case StringOk(_, a) =>
      var c := Skip(s, a);
      if Sees(s, c, 58) then Value(s, Skip(s, c + 1), depth) == Failed(x) else x == c
  }

  ghost predicate FieldsStop(s: seq<byte>, e: nat, depth: nat, x: nat)
    requires depth <= NESTING_LIMIT
  {
    e < |s| && s[e] > 32 && s[e] != 125 && if s[e] == 44 then MemberStops(s, e, depth, x) else x == e
  }

  lemma MemberFails(s: seq<byte>, off: nat, depth: nat, x: nat)
    requires off < |s| && depth <= NESTING_LIMIT && MemberStops(s, off, depth, x)
    ensures Members(s, off, depth) == Failed(x)
  {
    hide Value, JsonString.ParseString;
  }

  lemma {:induction false} FieldsFail(fields: seq<Field>, s: seq<byte>, off: nat, q: nat, depth: nat, x: nat)
    requires fields != [] && FieldsStand(s, q, fields) && depth <= NESTING_LIMIT
    requires off < |s| && Skip(s, off + 1) == q + |fields[0].before|
    requires depth + NestingOfMembers(TreeOfFields(fields)) <= 1000
    requires FieldsStop(s, q + SizeOfFields(fields), depth, x)
    ensures Members(s, off, depth) == Failed(x)
    decreases fields
  {
    hide Value, Members, Key, FieldsStand, KeyStands, Stands, Nesting, NestingOfMembers, Skip, NonBlank, Tree,
         TreeOfFields, Size, SizeOfFields, Head, Blank, FieldsStop;
    var f := fields[0];
    var c := q + Head(f);
    var v := c + 1 + |f.afterColon|;
    var a := v + Size(f.doc);
    var e := a + |f.after|;
    FirstField(s, q, fields);
    KeyParses(s, off, q, f);
    SkipTo(s, c + 1, v);
    StandingParses(f.doc, s, v, depth);
    if |fields| == 1 {
      LastField(q, fields);
      FieldStopIsVisible(s, e, depth, x);
      SkipTo(s, a, e);
      LastFieldStops(s, off, c, v, a, e, depth, x);
    } else {
      MoreFieldsStand(s, q, fields);
      MoreFields(fields);
      SkipTo(s, a, e);
      FirstField(s, e + 1, fields[1..]);
      SkipTo(s, e + 1, e + 1 + |fields[1].before|);
      FieldsFail(fields[1..], s, e, e + 1, depth, x);
      LaterFieldStops(s, off, c, v, a, e, depth, x);
    }
  }

  lemma FieldStopIsVisible(s: seq<byte>, e: nat, depth: nat, x: nat)
    requires depth <= NESTING_LIMIT && FieldsStop(s, e, depth, x)
    ensures e < |s| && s[e] > 32
  {
  }

  lemma LastFieldStops(s: seq<byte>, off: nat, c: nat, v: nat, a: nat, e: nat, depth: nat, x: nat)
    requires off < |s| && depth <= NESTING_LIMIT && c < |s| && v <= |s| && a <= |s|
    requires Key(s, off).Parsed? && Key(s, off).at == c && Skip(s, c + 1) == v
    requires Value(s, v, depth).Parsed? && Value(s, v, depth).at == a && Skip(s, a) == e
    requires FieldsStop(s, e, depth, x)
    ensures Members(s, off, depth) == Failed(x)
  {
    hide Value, Skip, Key, MemberStops;
    if s[e] == 44 {
      MemberFails(s, e, depth, x);
    }
  }

  lemma LaterFieldStops(s: seq<byte>, off: nat, c: nat, v: nat, a: nat, e: nat, depth: nat, x: nat)
    requires off < |s| && depth <= NESTING_LIMIT && c < |s| && v <= |s| && a <= |s|
    requires Key(s, off).Parsed? && Key(s, off).at == c && Skip(s, c + 1) == v
    requires Value(s, v, depth).Parsed? && Value(s, v, depth).at == a && Skip(s, a) == e && Sees(s, e, 44)
    requires Members(s, e, depth) == Failed(x)
    ensures Members(s, off, depth) == Failed(x)
  {
    hide Value, Skip, Key;
  }

  lemma ObjectInside(s: seq<byte>, p: nat, depth: nat, k: nat, x: nat)
    requires Sees(s, p, 123) && depth < 1000 && k == Skip(s, p + 1) < |s| && !Sees(s, k, 125)
    requires Members(s, k - 1, depth + 1) == Failed(x)
    ensures Value(s, p, depth) == Failed(x)
  {
    hide Value, Members, Skip;
    ObjectCase(s, p, depth);
  }

  /** An object stops where its first member does, or behind any number of complete members as described. */
  lemma ObjectStops(fields: seq<Field>, s: seq<byte>, p: nat, depth: nat, x: nat)
    requires Sees(s, p, 123) && depth < 1000
    requires fields == [] ==>
      !Sees(s, Skip(s, p + 1), 125) && Skip(s, p + 1) < |s| && MemberStops(s, Skip(s, p + 1) - 1, depth + 1, x)
    requires fields != [] ==>
      FieldsStand(s, p + 1, fields) && depth + 1 + NestingOfMembers(TreeOfFields(fields)) <= 1000 &&
      FieldsStop(s, p + 1 + SizeOfFields(fields), depth + 1, x)
    ensures Value(s, p, depth) == Failed(x)
  {
    hide Value, Members, FieldsStand, NestingOfMembers, TreeOfFields, SizeOfFields, Skip, NonBlank, FieldsStop,
         MemberStops, Stands, Size, Head, KeyStands;
    if fields == [] {
      MemberFails(s, Skip(s, p + 1) - 1, depth + 1, x);
      ObjectInside(s, p, depth, Skip(s, p + 1), x);
    } else {
      var k := p + 1 + |fields[0].before|;
      FirstField(s, p + 1, fields);
      SkipTo(s, p + 1, k);
      SkipTo(s, k, k);
      FieldsFail(fields, s, k - 1, p + 1, depth + 1, x);
      ObjectInside(s, p, depth, k, x);
    }
  }

  // ---------------------------------------------------------------- whole texts

  /** The position that is reported: where the value stops, or the visible byte behind the value if a NUL is
      demanded there; but never beyond the last byte. */
  lemma ErrorPosition(s: seq<byte>, p: nat, x: nat)
    requires s != [] && p == Skip(s, SkipBom(s))
    ensures Value(s, p, 0) == Failed(x) ==>
              forall nul :: Parse(s, nul) == Failed(if x < |s| then x else |s| - 1)
    ensures Value(s, p, 0).Parsed? && Skip(s, Value(s, p, 0).at) == x && x < |s| && s[x] > 32 ==>
              Parse(s, true) == Failed(x)
    ensures Parse([], false) == Parse([], true) == Failed(0)
  {
    hide Value, Skip, SkipBom;
  }
}
