/** What holds across parsing, printing, duplicating and comparing. */
module JsonPipeline {
  import opened Bytes
  import opened JsonTree
  import JsonText
  import P = JsonParse
  import C = JsonCompare
  import R = JsonRoundTrip

  // ---------------------------------------------------------------- what the parser can build

  /** The depth counter bounds the tree: whatever the input, nothing deeper than the limit is built. */
  lemma {:induction false} ValueNesting(s: seq<byte>, off: nat, depth: nat)
    requires off <= |s| && depth <= NESTING_LIMIT
    ensures P.Value(s, off, depth).Parsed? ==> depth + Nesting(P.Value(s, off, depth).value) <= NESTING_LIMIT
    decreases NESTING_LIMIT - depth, 1, 0
  {
    hide P.ArrayAt, P.ObjectAt, P.Reads, NestingOfItems, NestingOfMembers, JsonText.IsDigit;
    if P.Sees(s, off, JsonText.OPEN_BRACKET) {
      ArrayNesting(s, off, depth);
    } else if P.Sees(s, off, JsonText.OPEN_BRACE) {
      ObjectNesting(s, off, depth);
    }
  }

  lemma {:induction false} ArrayNesting(s: seq<byte>, off: nat, depth: nat)
    requires off < |s| && depth <= NESTING_LIMIT
    ensures P.ArrayAt(s, off, depth).Parsed? ==> depth + Nesting(P.ArrayAt(s, off, depth).value) <= NESTING_LIMIT
    decreases NESTING_LIMIT - depth, 0, 0
  {
    hide P.Elements, P.Skip;
    if depth < NESTING_LIMIT && P.Skip(s, off + 1) < |s| {
      ElementsNesting(s, P.Skip(s, off + 1) - 1, depth + 1);
    }
  }

  lemma {:induction false} ObjectNesting(s: seq<byte>, off: nat, depth: nat)
    requires off < |s| && depth <= NESTING_LIMIT
    ensures P.ObjectAt(s, off, depth).Parsed? ==> depth + Nesting(P.ObjectAt(s, off, depth).value) <= NESTING_LIMIT
    decreases NESTING_LIMIT - depth, 0, 0
  {
    hide P.Members, P.Skip;
    if depth < NESTING_LIMIT && P.Skip(s, off + 1) < |s| {
      MembersNesting(s, P.Skip(s, off + 1) - 1, depth + 1);
    }
  }

  lemma {:induction false} ElementsNesting(s: seq<byte>, off: nat, depth: nat)
    requires off < |s| && depth <= NESTING_LIMIT
    ensures P.Elements(s, off, depth).Parsed? ==>
              depth + NestingOfItems(P.Elements(s, off, depth).value) <= NESTING_LIMIT
    decreases NESTING_LIMIT - depth, 2, |s| - off
  {
    hide P.Value, P.Skip, Nesting;
    ValueNesting(s, P.Skip(s, off + 1), depth);
    var v := P.Value(s, P.Skip(s, off + 1), depth);
    if v.Parsed? {
      assert [v.value][1..] == [];
      var e := P.Skip(s, v.at);
      if P.Sees(s, e, JsonText.COMMA) {
        ElementsNesting(s, e, depth);
        var rest := P.Elements(s, e, depth);
        if rest.Parsed? {
          assert ([v.value] + rest.value)[1..] == rest.value;
        }
      }
    }
  }

  lemma {:induction false} MembersNesting(s: seq<byte>, off: nat, depth: nat)
    requires off < |s| && depth <= NESTING_LIMIT
    ensures P.Members(s, off, depth).Parsed? ==>
              depth + NestingOfMembers(P.Members(s, off, depth).value) <= NESTING_LIMIT
    decreases NESTING_LIMIT - depth, 2, |s| - off
  {
    hide P.Value, P.Skip, Nesting, P.Key;
    var key := P.Key(s, off);
    if key.Parsed? {
      ValueNesting(s, P.Skip(s, key.at + 1), depth);
      var v := P.Value(s, P.Skip(s, key.at + 1), depth);
      if v.Parsed? {
        var m := Member(key.value, v.value);
        assert [m][1..] == [];
        var e := P.Skip(s, v.at);
        if P.Sees(s, e, JsonText.COMMA) {
          MembersNesting(s, e, depth);
          var rest := P.Members(s, e, depth);
          if rest.Parsed? {
            assert ([m] + rest.value)[1..] == rest.value;
          }
        }
      }
    }
  }

  lemma {:induction false} HeightWithinNesting(v: Json)
    ensures C.Height(v) <= Nesting(v)
    decreases v, 0
  {
    match v
    case Array(items) => ItemsHeight(items);
    case Object(members) => MembersHeight(members);
    case _ =>
  }

  lemma {:induction false} ItemsHeight(items: seq<Json>)
    ensures C.HeightOfItems(items) <= 1 + NestingOfItems(items)
    decreases items
  {
    hide Nesting, C.Height;
    if items != [] {
      HeightWithinNesting(items[0]);
      ItemsHeight(items[1..]);
    }
  }

  lemma {:induction false} MembersHeight(members: seq<Member>)
    ensures C.HeightOfMembers(members) <= 1 + NestingOfMembers(members)
    decreases members
  {
    hide Nesting, C.Height;
    if members != [] {
      HeightWithinNesting(members[0].value);
      MembersHeight(members[1..]);
    }
  }

  /** Any tree that was parsed, from any input, stays within the nesting limit and can be duplicated. */
  lemma ParsedTreesDuplicate(s: seq<byte>, requireNullTerminated: bool)
    requires P.Parse(s, requireNullTerminated).Parsed?
    ensures var v := P.Parse(s, requireNullTerminated).value;
      Nesting(v) <= NESTING_LIMIT && C.Duplicate(v, 0, true).Some? &&
      C.Denote(C.Duplicate(v, 0, true).value) == C.Denote(v)
  {
    hide P.Value, P.Skip, P.SkipBom, Nesting, C.Height, C.Duplicate, C.Denote;
    ValueNesting(s, P.Skip(s, P.SkipBom(s)), 0);
    var v := P.Parse(s, requireNullTerminated).value;
    HeightWithinNesting(v);
    C.DuplicateMeans(v, 0);
  }

  // ---------------------------------------------------------------- print, parse, compare

  lemma {:induction false} PrintableIsInt32(v: Json)
    requires Printable(v)
    ensures C.Int32Numbers(v)
    decreases v, 0
  {
    hide PrintableItems, PrintableMembers;
    match v
    case Array(items) =>
      forall i | 0 <= i < |items| ensures C.Int32Numbers(items[i]) {
        PrintableItem(items, i);
        PrintableIsInt32(items[i]);
      }
    case Object(members) =>
      forall i | 0 <= i < |members| ensures C.Int32Numbers(members[i].value) {
        PrintableMember(members, i);
        PrintableIsInt32(members[i].value);
      }
    case _ =>
  }

  lemma {:induction false} PrintableItem(items: seq<Json>, i: nat)
    requires PrintableItems(items) && i < |items|
    ensures Printable(items[i])
    decreases items
  {
    hide Printable;
    if i > 0 {
      PrintableItem(items[1..], i - 1);
    }
  }

  lemma {:induction false} PrintableMember(members: seq<Member>, i: nat)
    requires PrintableMembers(members) && i < |members|
    ensures Printable(members[i].value)
    decreases members
  {
    hide Printable;
    if i > 0 {
      PrintableMember(members[1..], i - 1);
    }
  }

  /** What comes back from either print compares equal to the original exactly when the original compares
      equal to a copy of itself: when members that share a name have the same value. */
  lemma ReparsedComparesEqual(v: Json, format: bool)
    requires Printable(v) && Nesting(v) <= NESTING_LIMIT
    ensures var r := P.Parse(JsonText.Text(v, format, 0) + [0], true);
      r.Parsed? && (C.Compare(v, r.value) <==> C.Coherent(v))
  {
    hide P.Parse, C.Compare, C.Coherent, C.Denote, JsonText.Text, Printable, Nesting, C.Int32Numbers;
    R.ParseUndoesPrint(v, format);
    PrintableIsInt32(v);
    C.CompareIsEquality(v, v);
  }
}
