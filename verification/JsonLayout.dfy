/** How printed text is laid out. The text of a tree is that of a document whose blanks are known: none at
    all without formatting; with it, a space behind each comma of an array, a line of its own behind as
    many tabs as containers are open for each member of an object, and a tab behind each colon. */
module JsonLayout {
  import opened Bytes
  import opened JsonTree
  import opened JsonText
  import opened JsonGrammar
  import opened JsonDocuments
  import JsonNumber
  import JsonNumberGrammar
  import JsonRoundTrip
  import JsonString

  /** A new line that is indented by `n` tabs. */
  function Line(n: nat): seq<byte> {
    [10] + seq(n, _ => 9)
  }

  function If(format: bool, gap: seq<byte>): seq<byte> {
    if format then gap else []
  }

  /** The document that is printed for `v` when `depth` containers are open. */
  function Layout(v: Json, format: bool, depth: nat): Doc
    requires Printable(v)
    decreases v, 0
  {
    match v
    case Null => Leaf(Ascii("null"), v)
    case False => Leaf(Ascii("false"), v)
    case True => Leaf(Ascii("true"), v)
    case Number(d) => Leaf(IntText(d.Floor), v)
    case String(s) => Leaf(StringText(s), v)
    case Array(items) => List([], LayoutOfItems(items, format, depth + 1, true))
    case Object(members) => Record(If(format, Line(depth)), LayoutOfMembers(members, format, depth + 1))
  }

  function LayoutOfItems(items: seq<Json>, format: bool, depth: nat, first: bool): (r: seq<Element>)
    requires PrintableItems(items)
    ensures |r| == |items|
    decreases items
  {
    if items == [] then []
    else
      [Element(If(format && !first, Ascii(" ")), Layout(items[0], format, depth), [])] +
      LayoutOfItems(items[1..], format, depth, false)
  }

  function LayoutOfMembers(members: seq<Member>, format: bool, depth: nat): (r: seq<Field>)
    requires PrintableMembers(members) && depth > 0
    ensures |r| == |members|
    decreases members
  {
    if members == [] then []
    else
      [Field(If(format, Line(depth)), StringText(members[0].key), members[0].key, [], If(format, [9]),
             Layout(members[0].value, format, depth), If(format && |members| == 1, Line(depth - 1)))] +
      LayoutOfMembers(members[1..], format, depth)
  }

  // ---------------------------------------------------------------- the text is this document's

  lemma {:induction false} TextIsLaidOut(v: Json, format: bool, depth: nat)
    requires Printable(v)
    ensures Text(v, format, depth) == Flat(Layout(v, format, depth))
    decreases v, 1
  {
    hide ItemsText, MembersText, LayoutOfItems, LayoutOfMembers, FlatElements, FlatFields, PrintableItems,
         PrintableMembers, Indent, Opening, Line;
    Signs();
    ConstantTexts();
    match v
    case Array(items) =>
      ItemsAreLaidOut(items, format, depth + 1, true);
      if items == [] {
        EmptyTexts(format, depth + 1);
      } else {
        assert [] + ItemsText(items, format, depth + 1) == ItemsText(items, format, depth + 1);
      }
    case Object(members) =>
      ObjectIsLaidOut(members, format, depth);
    case _ =>
  }

  lemma EmptyTexts(format: bool, depth: nat)
    ensures ItemsText([], format, depth) == [] == MembersText([], format, depth)
  {
  }

  lemma {:induction false} ItemsAreLaidOut(items: seq<Json>, format: bool, depth: nat, first: bool)
    requires PrintableItems(items)
    ensures FlatElements(LayoutOfItems(items, format, depth, first)) ==
            If(format && !first && items != [], [32]) + ItemsText(items, format, depth)
    decreases items, 0
  {
    hide Text, Layout, Flat, FlatElements, LayoutOfItems, Printable;
    if items == [] {
      NothingIsLaidOut(format, depth, first);
    } else {
      TextIsLaidOut(items[0], format, depth);
      ItemsAreLaidOut(items[1..], format, depth, false);
      FirstItem(items, format, depth, first);
      var gap := If(format && !first, [32]);
      if |items| == 1 {
        NothingBehind(gap, Text(items[0], format, depth));
      } else {
        CommaAndGap(format);
        ItemsJoin(gap, Text(items[0], format, depth), [44], If(format, [32]), ItemsText(items[1..], format, depth));
      }
    }
  }

  lemma NothingIsLaidOut(format: bool, depth: nat, first: bool)
    ensures FlatElements(LayoutOfItems([], format, depth, first)) == []
    ensures ItemsText([], format, depth) == []
  {
  }

  lemma CommaAndGap(format: bool)
    ensures Separator(format) == [44] + If(format, [32])
  {
  }

  lemma FirstItem(items: seq<Json>, format: bool, depth: nat, first: bool)
    requires PrintableItems(items) && items != []
    ensures FlatElements(LayoutOfItems(items, format, depth, first)) ==
            If(format && !first, [32]) + Flat(Layout(items[0], format, depth)) + [] +
            if |items| == 1 then [] else [44] + FlatElements(LayoutOfItems(items[1..], format, depth, false))
  {
    hide Flat, Layout;
    Signs();
    assert Ascii(" ") == [32];
    var r := LayoutOfItems(items, format, depth, first);
    assert r[1..] == LayoutOfItems(items[1..], format, depth, false);
  }

  lemma NothingBehind(g: seq<byte>, t: seq<byte>)
    ensures g + t + [] + [] == g + t
  {
  }

  lemma ItemsJoin(g: seq<byte>, t: seq<byte>, c: seq<byte>, h: seq<byte>, r: seq<byte>)
    ensures g + t + [] + (c + (h + r)) == g + (t + (c + h) + r)
  {
    assert g + t + [] == g + t;
    Regroup(c, h, r);
    Regroup(t, c + h, r);
    Regroup(g, t, (c + h) + r);
  }

  // ---------------------------------------------------------------- objects

  lemma {:induction false} ObjectIsLaidOut(members: seq<Member>, format: bool, depth: nat)
    requires PrintableMembers(members)
    ensures Text(Object(members), format, depth) == Flat(Layout(Object(members), format, depth))
    decreases members, 1
  {
    hide MembersText, LayoutOfMembers, FlatFields, PrintableMembers, Tabs;
    Signs();
    LineIs(depth);
    EmptyTexts(format, depth + 1);
    var m := MembersText(members, format, depth + 1);
    if members != [] {
      MembersAreLaidOut(members, format, depth + 1);
    }
    if format {
      assert [123, 10] == [123] + [10];
      Regroup([123], [10], m);
      Regroup([123], [10] + m, Tabs(depth));
      assert [10] + [] + Tabs(depth) == Line(depth);
    } else {
      assert [123] + m + [] == [123] + m;
    }
  }

  lemma LineIs(n: nat)
    ensures Line(n) == [10] + Tabs(n)
  {
  }

  lemma {:induction false} MembersAreLaidOut(members: seq<Member>, format: bool, depth: nat)
    requires PrintableMembers(members) && members != [] && depth > 0
    ensures FlatFields(LayoutOfMembers(members, format, depth)) ==
            if format then [10] + MembersText(members, format, depth) + Tabs(depth - 1)
            else MembersText(members, format, depth)
    decreases members, 0
  {
    hide Text, Layout, Flat, FlatFields, LayoutOfMembers, Printable, Tabs, StringText, MembersText, NulFree, Line;
    var k, t := StringText(members[0].key), Text(members[0].value, format, depth);
    var rest := members[1..];
    MembersParts(members, format, depth);
    TextIsLaidOut(members[0].value, format, depth);
    FirstMember(members, format, depth);
    LineIs(depth);
    LineIs(depth - 1);
    if |members| == 1 {
      EmptyTexts(format, depth);
      if format {
        LastLine(Tabs(depth), k, t, Tabs(depth - 1));
      } else {
        LastInline(k, t);
      }
    } else {
      MembersAreLaidOut(rest, format, depth);
      if format {
        OneLine(Tabs(depth), k, t, MembersText(rest, format, depth), Tabs(depth - 1));
      } else {
        OneInline(k, t, MembersText(rest, format, depth));
      }
    }
  }

  lemma MembersParts(members: seq<Member>, format: bool, depth: nat)
    requires PrintableMembers(members) && members != []
    ensures NulFree(members[0].key) && Printable(members[0].value) && PrintableMembers(members[1..])
    ensures MembersText(members, format, depth) ==
            (If(format, Tabs(depth)) + StringText(members[0].key) + (if format then [58, 9] else [58]) +
             Text(members[0].value, format, depth) +
             ((if |members| == 1 then [] else [44]) + If(format, [10]))) + MembersText(members[1..], format, depth)
  {
    hide Text, StringText, NulFree, Printable, Tabs;
  }

  lemma FirstMember(members: seq<Member>, format: bool, depth: nat)
    requires PrintableMembers(members) && members != [] && depth > 0
    ensures FlatFields(LayoutOfMembers(members, format, depth)) ==
            (If(format, Line(depth)) + StringText(members[0].key) + [] + [58]) +
            (If(format, [9]) + Flat(Layout(members[0].value, format, depth)) +
             If(format && |members| == 1, Line(depth - 1))) +
            if |members| == 1 then [] else [44] + FlatFields(LayoutOfMembers(members[1..], format, depth))
  {
    hide Flat, Layout, StringText, Line;
    Signs();
    var r := LayoutOfMembers(members, format, depth);
    assert r[1..] == LayoutOfMembers(members[1..], format, depth);
  }

  lemma LastLine(tabs: seq<byte>, k: seq<byte>, t: seq<byte>, outer: seq<byte>)
    ensures (([10] + tabs) + k + [] + [58]) + ([9] + t + ([10] + outer)) + [] ==
            [10] + ((tabs + k + [58, 9] + t + ([] + [10])) + []) + outer
  {
    Chain([10], tabs, k, t);
    var x := tabs + k + [58, 9] + t;
    assert (([10] + tabs) + k + [] + [58]) + ([9] + t + ([10] + outer)) + [] ==
           ((([10] + tabs) + k + [] + [58]) + ([9] + t)) + ([10] + outer);
    Regroup([10] + x, [10], outer);
    Regroup([10], x, [10]);
  }

  lemma Chain(nl: seq<byte>, tabs: seq<byte>, k: seq<byte>, t: seq<byte>)
    ensures ((nl + tabs) + k + [] + [58]) + ([9] + t) == nl + (tabs + k + [58, 9] + t)
  {
    assert [58] + [9] == [58, 9];
    assert (nl + tabs) + k + [] == (nl + tabs) + k;
    Regroup((nl + tabs) + k + [58], [9], t);
    Regroup((nl + tabs) + k, [58], [9]);
    Regroup(nl, tabs, k);
    Regroup(nl, tabs + k, [58, 9]);
    Regroup(nl, tabs + k + [58, 9], t);
  }

  lemma LastInline(k: seq<byte>, t: seq<byte>)
    ensures ([] + k + [] + [58]) + ([] + t + []) + [] == ([] + k + [58] + t + ([] + [])) + []
  {
    assert [] + k + [] == k && [] + t + [] == t && [] + k == k;
  }

  lemma OneLine(tabs: seq<byte>, k: seq<byte>, t: seq<byte>, rest: seq<byte>, outer: seq<byte>)
    ensures (([10] + tabs) + k + [] + [58]) + ([9] + t + []) + ([44] + ([10] + rest + outer)) ==
            [10] + ((tabs + k + [58, 9] + t + ([44] + [10])) + rest) + outer
  {
    Chain([10], tabs, k, t);
    var x := tabs + k + [58, 9] + t;
    assert [9] + t + [] == [9] + t;
    Regroup([44], [10] + rest, outer);
    Regroup([44], [10], rest);
    Regroup([10] + x, ([44] + [10]) + rest, outer);
    Regroup([10], x, ([44] + [10]) + rest);
    Regroup(x, [44] + [10], rest);
  }

  lemma OneInline(k: seq<byte>, t: seq<byte>, rest: seq<byte>)
    ensures ([] + k + [] + [58]) + ([] + t + []) + ([44] + rest) == ([] + k + [58] + t + ([44] + [])) + rest
  {
    assert [] + k + [] == k && [] + t + [] == t && [] + k == k && [44] + [] == [44];
    Regroup(k + [58] + t, [44], rest);
  }

  // ---------------------------------------------------------------- it is JSON, and stands for the tree

  /** What is printed is JSON text for the tree. */
  lemma {:induction false} LayoutIsJson(v: Json, format: bool, depth: nat)
    requires Printable(v)
    ensures IsJson(Layout(v, format, depth)) && Tree(Layout(v, format, depth)) == v
    decreases v, 1
  {
    hide LayoutOfItems, LayoutOfMembers, AllElements, AllFields, TreeOfElements, TreeOfFields, NumberToken, StringToken,
         PrintableItems, PrintableMembers, IntText, StringText, NulFree;
    match v
    case Number(d) => IntegerToken(d.Floor);
    case String(s) => PrintedToken(s);
    case Array(items) => ItemsAreJson(items, format, depth + 1, true);
    case Object(members) =>
      MembersAreJson(members, format, depth + 1);
    case _ =>
  }

  lemma IntegerToken(n: int)
    requires INT_MIN <= n <= INT_MAX
    ensures NumberToken(IntText(n), n as real)
  {
    hide IntText, JsonNumberGrammar.NumeralText;
    JsonNumberGrammar.PrintedInteger(n);
    JsonNumber.Int32Length(n);
    var d := Digits(if n < 0 then -n else n);
    var numeral := JsonNumberGrammar.Numeral(n < 0, d, None, None);
    assert JsonNumberGrammar.Fraction([]) == 0.0;
    assert JsonNumberGrammar.Worth(numeral) == n as real;
    assert JsonNumberGrammar.Wellformed(numeral);
  }

  lemma PrintedToken(s: seq<byte>)
    requires NulFree(s)
    ensures StringToken(StringText(s), s)
  {
    hide Escaped, JsonString.Meaning;
    JsonRoundTrip.EscapedMeans(s);
    var t := StringText(s);
    assert t[1..|t| - 1] == Escaped(s);
  }

  lemma {:induction false} ItemsAreJson(items: seq<Json>, format: bool, depth: nat, first: bool)
    requires PrintableItems(items)
    ensures var r := LayoutOfItems(items, format, depth, first); AllElements(r) && TreeOfElements(r) == items
    decreases items, 0
  {
    hide Layout, IsJson, Tree;
    if items != [] {
      LayoutIsJson(items[0], format, depth);
      ItemsAreJson(items[1..], format, depth, false);
      var r := LayoutOfItems(items, format, depth, first);
      assert r[1..] == LayoutOfItems(items[1..], format, depth, false);
      assert [items[0]] + items[1..] == items;
    }
  }

  lemma {:induction false} MembersAreJson(members: seq<Member>, format: bool, depth: nat)
    requires PrintableMembers(members) && depth > 0
    ensures var r := LayoutOfMembers(members, format, depth); AllFields(r) && TreeOfFields(r) == members
    ensures AllBlank(If(format, Line(depth - 1)))
    decreases members, 0
  {
    hide Layout, IsJson, Tree, StringText, StringToken, NulFree;
    if members != [] {
      PrintedToken(members[0].key);
      LayoutIsJson(members[0].value, format, depth);
      MembersAreJson(members[1..], format, depth);
      var r := LayoutOfMembers(members, format, depth);
      assert r[1..] == LayoutOfMembers(members[1..], format, depth);
      assert Member(members[0].key, members[0].value) == members[0];
      assert [members[0]] + members[1..] == members;
    }
  }
}
