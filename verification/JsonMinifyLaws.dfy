/** What minification keeps: it does nothing the second time, and it turns the formatted print of a tree
    into the unformatted one exactly when no formatting follows a string that ends in a backslash. */
module JsonMinifyLaws {
  import opened Bytes
  import opened JsonTree
  import opened JsonText
  import opened JsonMinify

  // ---------------------------------------------------------------- twice is once

  lemma {:induction false} Idempotent(s: seq<byte>)
    ensures Minified(Minified(s)) == Minified(s)
    decreases |s|
  {
    if s != [] {
      var rest := s[1..];
      if s[0] == SLASH && |s| > 1 && s[1] == SLASH {
        LineThenAgain(s[2..]);
      } else if s[0] == SLASH && |s| > 1 && s[1] == STAR {
        BlockThenAgain(s[2..]);
      } else if s[0] == QUOTE {
        QuotedAgain(rest);
        assert ([QUOTE] + Quoted(rest))[1..] == Quoted(rest);
      } else {
        Idempotent(rest);
        assert ([s[0]] + Minified(rest))[1..] == Minified(rest);
      }
    }
  }

  lemma {:induction false} QuotedAgain(s: seq<byte>)
    ensures Quoted(Quoted(s)) == Quoted(s)
    decreases |s|
  {
    if s != [] {
      if s[0] == QUOTE {
        Idempotent(s[1..]);
        assert ([QUOTE] + Minified(s[1..]))[1..] == Minified(s[1..]);
      } else if s[0] == BACKSLASH && |s| > 1 && s[1] == QUOTE {
        QuotedAgain(s[2..]);
        assert ([BACKSLASH, QUOTE] + Quoted(s[2..]))[2..] == Quoted(s[2..]);
      } else {
        var m := [s[0]] + Quoted(s[1..]);
        QuotedAgain(s[1..]);
        assert m[1..] == Quoted(s[1..]);
        if |s| > 1 {
          assert m[1] == s[1];
        }
      }
    }
  }

  lemma {:induction false} LineThenAgain(s: seq<byte>)
    ensures Minified(AfterLine(s)) == AfterLine(s)
    decreases |s|
  {
    if s != [] {
      if s[0] == NEWLINE {
        Idempotent(s[1..]);
      } else {
        LineThenAgain(s[1..]);
      }
    }
  }

  lemma {:induction false} BlockThenAgain(s: seq<byte>)
    ensures Minified(AfterBlock(s)) == AfterBlock(s)
    decreases |s|
  {
    if s != [] {
      if s[0] == STAR && |s| > 1 && s[1] == SLASH {
        Idempotent(s[2..]);
      } else {
        BlockThenAgain(s[1..]);
      }
    }
  }

  // ---------------------------------------------------------------- pieces of text

  /** Bytes that minification copies wherever they stand outside strings. */
  predicate Plain(t: seq<byte>) {
    forall i :: 0 <= i < |t| ==> !IsBlank(t[i]) && t[i] != SLASH && t[i] != QUOTE
  }

  predicate AllBlank(t: seq<byte>) {
    forall i :: 0 <= i < |t| ==> IsBlank(t[i])
  }

  lemma {:induction false} PlainIsKept(t: seq<byte>, rest: seq<byte>)
    requires Plain(t)
    ensures Minified(t + rest) == t + Minified(rest)
    decreases |t|
  {
    if t == [] {
      assert t + rest == rest;
    } else {
      PlainIsKept(t[1..], rest);
      assert (t + rest)[1..] == t[1..] + rest;
      assert t + Minified(rest) == [t[0]] + (t[1..] + Minified(rest));
    }
  }

  lemma {:induction false} BlankIsDropped(t: seq<byte>, rest: seq<byte>)
    requires AllBlank(t)
    ensures Minified(t + rest) == Minified(rest)
    decreases |t|
  {
    if t == [] {
      assert t + rest == rest;
    } else {
      BlankIsDropped(t[1..], rest);
      assert (t + rest)[1..] == t[1..] + rest;
    }
  }

  predicate EndsInBackslash(k: seq<byte>) {
    k != [] && k[|k| - 1] == BACKSLASH
  }

  lemma QuoteIsKept(rest: seq<byte>)
    ensures Quoted([BACKSLASH, QUOTE] + rest) == [BACKSLASH, QUOTE] + Quoted(rest)
    ensures Minified([QUOTE] + rest) == [QUOTE] + Quoted(rest)
    ensures Quoted([QUOTE] + rest) == [QUOTE] + Minified(rest)
  {
    assert ([BACKSLASH, QUOTE] + rest)[2..] == rest;
    assert ([QUOTE] + rest)[1..] == rest;
  }

  lemma ByteIsKept(b: byte, rest: seq<byte>)
    requires b != QUOTE && (b == BACKSLASH ==> rest == [] || rest[0] != QUOTE)
    ensures Quoted([b] + rest) == [b] + Quoted(rest)
  {
    assert ([b] + rest)[1..] == rest;
  }

  lemma PairIsKept(b: byte, rest: seq<byte>)
    requires b != QUOTE && (b == BACKSLASH ==> rest == [] || rest[0] != QUOTE)
    ensures Quoted([BACKSLASH, b] + rest) == [BACKSLASH, b] + Quoted(rest)
  {
    hide Quoted;
    ByteIsKept(b, rest);
    ByteIsKept(BACKSLASH, [b] + rest);
    Regroup([BACKSLASH], [b], rest);
    Regroup([BACKSLASH], [b], Quoted(rest));
    assert [BACKSLASH] + [b] == [BACKSLASH, b];
  }

  lemma EscapeShape(c: byte)
    ensures c == QUOTE || Escape(c) == [c] || |Escape(c)| == 6 || (|Escape(c)| == 2 && Escape(c)[0] == BACKSLASH)
    ensures c == QUOTE ==> Escape(c) == [BACKSLASH, QUOTE]
    ensures c != BACKSLASH && Escape(c) == [c] ==> c != QUOTE
    ensures c != QUOTE && |Escape(c)| == 2 ==> Escape(c)[1] != QUOTE && (Escape(c)[1] == BACKSLASH ==> c == BACKSLASH)
    ensures c == BACKSLASH ==> |Escape(c)| == 2
    ensures |Escape(c)| == 6 ==> Escape(c)[0] == BACKSLASH
    ensures |Escape(c)| == 6 ==> forall i :: 1 <= i < 6 ==> Escape(c)[i] != QUOTE && Escape(c)[i] != BACKSLASH
  {
  }

  /** One printed byte inside a string is copied, whatever follows it, unless it is a backslash and a
      quote follows. */
  lemma EscapeIsKept(c: byte, rest: seq<byte>)
    requires c == BACKSLASH ==> rest != [] && rest[0] != QUOTE
    ensures Quoted(Escape(c) + rest) == Escape(c) + Quoted(rest)
  {
    hide Quoted, Escape, Minified;
    EscapeShape(c);
    if c == QUOTE {
      QuoteIsKept(rest);
    } else if Escape(c) == [c] {
      ByteIsKept(c, rest);
    } else if |Escape(c)| == 2 {
      assert Escape(c) == [BACKSLASH, Escape(c)[1]];
      PairIsKept(Escape(c)[1], rest);
    } else {
      ControlIsKept(Escape(c), rest);
    }
  }

  lemma ControlIsKept(e: seq<byte>, rest: seq<byte>)
    requires |e| == 6 && e[0] == BACKSLASH
    requires forall i :: 1 <= i < 6 ==> e[i] != QUOTE && e[i] != BACKSLASH
    ensures Quoted(e + rest) == e + Quoted(rest)
  {
    var t := e + rest;
    assert t[1..] == e[1..] + rest;
    VisibleIsKept(e[1..], rest);
    assert e + Quoted(rest) == [e[0]] + (e[1..] + Quoted(rest));
  }

  lemma {:induction false} VisibleIsKept(e: seq<byte>, rest: seq<byte>)
    requires forall i :: 0 <= i < |e| ==> e[i] != QUOTE && e[i] != BACKSLASH
    ensures Quoted(e + rest) == e + Quoted(rest)
    decreases |e|
  {
    if e == [] {
      assert e + rest == rest;
    } else {
      VisibleIsKept(e[1..], rest);
      assert (e + rest)[1..] == e[1..] + rest;
      assert e + Quoted(rest) == [e[0]] + (e[1..] + Quoted(rest));
    }
  }

  /** A printed string up to its closing quote: copied, if it does not end in a backslash. */
  lemma {:induction false} EscapedIsKept(k: seq<byte>, rest: seq<byte>)
    ensures !EndsInBackslash(k) ==> Quoted(Escaped(k) + rest) == Escaped(k) + Quoted(rest)
    ensures EndsInBackslash(k) ==>
      Quoted(Escaped(k) + ([QUOTE] + rest)) == Escaped(k) + [QUOTE] + Quoted(rest)
    decreases |k|
  {
    hide Quoted, Escape, Escaped;
    if k == [] {
      NothingEscaped();
      assert [] + rest == rest && [] + Quoted(rest) == Quoted(rest);
    } else if |k| == 1 && k[0] == BACKSLASH {
      LastBackslash(k, rest);
    } else {
      EscapedStepKept(k, rest);
      EscapedStepKept(k, [QUOTE] + rest);
      EscapedIsKept(k[1..], rest);
      EscapedJoin(k, rest);
    }
  }

  lemma NothingEscaped()
    ensures Escaped([]) == []
  {
  }

  lemma LastBackslash(k: seq<byte>, rest: seq<byte>)
    requires |k| == 1 && k[0] == BACKSLASH
    ensures Quoted(Escaped(k) + ([QUOTE] + rest)) == Escaped(k) + [QUOTE] + Quoted(rest)
  {
    assert k[1..] == [] && Escaped(k) == [BACKSLASH, BACKSLASH];
    hide Quoted;
    var t := Escaped(k) + ([QUOTE] + rest);
    assert t == [BACKSLASH] + ([BACKSLASH, QUOTE] + rest);
    ByteIsKept(BACKSLASH, [BACKSLASH, QUOTE] + rest);
    QuoteIsKept(rest);
    assert [BACKSLASH] + ([BACKSLASH, QUOTE] + Quoted(rest)) == Escaped(k) + [QUOTE] + Quoted(rest);
  }

  lemma EscapedParts(k: seq<byte>)
    requires k != []
    ensures Escaped(k) == Escape(k[0]) + Escaped(k[1..])
  {
  }

  lemma EscapedJoin(k: seq<byte>, rest: seq<byte>)
    requires k != []
    ensures Escaped(k) + Quoted(rest) == Escape(k[0]) + (Escaped(k[1..]) + Quoted(rest))
    ensures Escaped(k) + [QUOTE] + Quoted(rest) == Escape(k[0]) + (Escaped(k[1..]) + [QUOTE] + Quoted(rest))
  {
    hide Escape, Escaped, Quoted;
    EscapedParts(k);
    Regroup(Escape(k[0]), Escaped(k[1..]), Quoted(rest));
    Regroup(Escape(k[0]), Escaped(k[1..]), [QUOTE]);
    Regroup(Escape(k[0]), Escaped(k[1..]) + [QUOTE], Quoted(rest));
  }

  lemma EscapedStepKept(k: seq<byte>, rest: seq<byte>)
    requires k != [] && (|k| > 1 || k[0] != BACKSLASH)
    ensures EndsInBackslash(k) == EndsInBackslash(k[1..])
    ensures Quoted(Escaped(k) + rest) == Escape(k[0]) + Quoted(Escaped(k[1..]) + rest)
  {
    hide Escape, Quoted, Escaped;
    var tail := Escaped(k[1..]) + rest;
    EscapedParts(k);
    Regroup(Escape(k[0]), Escaped(k[1..]), rest);
    if k[0] == BACKSLASH {
      FirstNotQuote(k[1..]);
      assert tail[0] == Escaped(k[1..])[0];
    }
    EscapeIsKept(k[0], tail);
  }

  lemma FirstNotQuote(k: seq<byte>)
    requires k != []
    ensures Escaped(k) != [] && Escaped(k)[0] != QUOTE
  {
    assert Escape(k[0])[0] != QUOTE;
    hide Escape;
    assert Escaped(k)[0] == Escape(k[0])[0];
  }

  /** A printed string outside strings: copied, if it does not end in a backslash; otherwise its closing
      quote is taken for an escape, and what follows is read as if it were still inside. */
  lemma StringIsKept(k: seq<byte>, rest: seq<byte>)
    ensures !EndsInBackslash(k) ==> Minified(StringText(k) + rest) == StringText(k) + Minified(rest)
    ensures EndsInBackslash(k) ==> Minified(StringText(k) + rest) == StringText(k) + Quoted(rest)
  {
    hide Escaped, Quoted, Minified;
    EscapedIsKept(k, [QUOTE] + rest);
    EscapedIsKept(k, rest);
    QuoteIsKept(Escaped(k) + ([QUOTE] + rest));
    QuoteIsKept(rest);
    Join4([QUOTE], Escaped(k), [QUOTE], rest);
    Join4([QUOTE], Escaped(k), [QUOTE], Minified(rest));
    Join4([QUOTE], Escaped(k), [QUOTE], Quoted(rest));
  }

  lemma Join4(a: seq<byte>, b: seq<byte>, c: seq<byte>, d: seq<byte>)
    ensures a + b + c + d == a + (b + (c + d)) == a + (b + c + d)
  {
  }

  // ---------------------------------------------------------------- trees

  /** No string and no key ends in a backslash. */
  predicate Clean(v: Json)
    decreases v, 0
  {
    match v
    case String(k) => !EndsInBackslash(k)
    case Array(items) => CleanItems(items)
    case Object(members) => CleanMembers(members)
    case _ => true
  }

  predicate CleanItems(items: seq<Json>)
    decreases items
  {
    items == [] || (Clean(items[0]) && CleanItems(items[1..]))
  }

  predicate CleanMember(m: Member)
    decreases m, 1
  {
    !EndsInBackslash(m.key) && Clean(m.value)
  }

  predicate CleanMembers(members: seq<Member>)
    decreases members
  {
    members == [] || (CleanMember(members[0]) && CleanMembers(members[1..]))
  }

  /** A string may end in a backslash only where nothing but closing brackets can follow it. */
  predicate MinifySafe(v: Json)
    decreases v, 0
  {
    match v
    case String(_) => true
    case Array(items) => SafeItems(items)
    case _ => Clean(v)
  }

  predicate SafeItems(items: seq<Json>)
    decreases items
  {
    items == [] ||
    if |items| == 1 then MinifySafe(items[0]) else Clean(items[0]) && SafeItems(items[1..])
  }

  lemma {:induction false} CleanIsSafe(v: Json)
    ensures Clean(v) ==> MinifySafe(v)
    decreases v, 1
  {
    if v.Array? {
      CleanItemsAreSafe(v.items);
    }
  }

  lemma {:induction false} CleanItemsAreSafe(items: seq<Json>)
    ensures CleanItems(items) ==> SafeItems(items)
    decreases items, 0
  {
    if items != [] {
      CleanIsSafe(items[0]);
      CleanItemsAreSafe(items[1..]);
    }
  }

  /** How the minified text `m` of a formatted `f + rest` compares with the unformatted `u`: the same and
      outside strings, the same but inside one, or different. */
  ghost predicate Outcome(m: seq<byte>, u: seq<byte>, rest: seq<byte>, clean: bool, safe: bool) {
    && (clean ==> m == u + Minified(rest))
    && (!clean && safe ==> m == u + Quoted(rest))
    && (!safe ==> !(u <= m))
  }

  lemma PrefixCancel(a: seq<byte>, b: seq<byte>, c: seq<byte>)
    ensures a + b <= a + c <==> b <= c
  {
    if a + b <= a + c {
      assert (a + c)[..|a + b|][|a|..] == c[..|b|];
      assert (a + b)[|a|..] == b;
    }
    if b <= c {
      assert (a + c)[..|a + b|] == a + c[..|b|];
    }
  }

  lemma PrefixFirst(a: seq<byte>, b: seq<byte>, m: seq<byte>)
    ensures a + b <= m ==> a <= m
  {
  }

  lemma IntIsPlain(n: int)
    ensures Plain(IntText(n))
  {
    DigitsArePlain(if n < 0 then -n else n);
  }

  lemma DigitsArePlain(n: nat)
    ensures Plain(Digits(n))
  {
  }

  lemma ConstantsArePlain()
    ensures Plain(NULL_TEXT) && Plain(TRUE_TEXT) && Plain(FALSE_TEXT)
    ensures Plain([COMMA]) && Plain([COLON]) && Plain([OPEN_BRACKET]) && Plain([CLOSE_BRACKET])
    ensures Plain([OPEN_BRACE]) && Plain([CLOSE_BRACE])
    ensures AllBlank([SPACE]) && AllBlank([TAB]) && AllBlank([NEWLINE])
  {
  }

  lemma {:induction false} TextMinifies(v: Json, depth: nat, rest: seq<byte>)
    requires Printable(v)
    ensures Outcome(Minified(Text(v, true, depth) + rest), Text(v, false, depth), rest, Clean(v), MinifySafe(v))
    decreases v, 2
  {
    match v
    case Array(items) => ArrayMinifies(items, depth, rest);
    case Object(members) => ObjectMinifies(members, depth, rest);
    case _ => LeafMinifies(v, depth, rest);
  }

  lemma LeafMinifies(v: Json, depth: nat, rest: seq<byte>)
    requires Printable(v) && !v.Array? && !v.Object?
    ensures Outcome(Minified(Text(v, true, depth) + rest), Text(v, false, depth), rest, Clean(v), MinifySafe(v))
  {
    hide Minified, Quoted, StringText, IntText;
    match v
    case String(k) => StringIsKept(k, rest);
    case Number(d) =>
      IntIsPlain(d.Floor);
      PlainIsKept(IntText(d.Floor), rest);
    case Null =>
      ConstantsArePlain();
      PlainIsKept(NULL_TEXT, rest);
    case True =>
      ConstantsArePlain();
      PlainIsKept(TRUE_TEXT, rest);
    case False =>
      ConstantsArePlain();
      PlainIsKept(FALSE_TEXT, rest);
  }

  // ---------------------------------------------------------------- arrays

  lemma {:induction false} ArrayMinifies(items: seq<Json>, depth: nat, rest: seq<byte>)
    requires PrintableItems(items)
    ensures Outcome(Minified(Text(Array(items), true, depth) + rest), Text(Array(items), false, depth), rest,
                    CleanItems(items), SafeItems(items))
    decreases items, 1
  {
    hide Text, ItemsText, Minified, Quoted, CleanItems, SafeItems, PrintableItems, Outcome;
    if items == [] {
      EmptyArrayMinifies(depth, rest);
    } else {
      ItemsMinify(items, depth + 1, [CLOSE_BRACKET] + rest);
      BracketsMinify(items, depth, rest);
    }
  }

  lemma EmptyArrayMinifies(depth: nat, rest: seq<byte>)
    ensures Outcome(Minified(Text(Array([]), true, depth) + rest), Text(Array([]), false, depth), rest,
                    CleanItems([]), SafeItems([]))
  {
    var t := [OPEN_BRACKET, CLOSE_BRACKET];
    assert Text(Array([]), true, depth) == t == Text(Array([]), false, depth);
    PlainIsKept(t, rest);
  }

  lemma BracketsMinify(items: seq<Json>, depth: nat, rest: seq<byte>)
    requires PrintableItems(items)
    requires Outcome(Minified(ItemsText(items, true, depth + 1) + ([CLOSE_BRACKET] + rest)),
                     ItemsText(items, false, depth + 1),
                     [CLOSE_BRACKET] + rest, CleanItems(items), SafeItems(items))
    ensures Outcome(Minified(Text(Array(items), true, depth) + rest), Text(Array(items), false, depth), rest,
                    CleanItems(items), SafeItems(items))
  {
    ArrayText(items, true, depth);
    ArrayText(items, false, depth);
    hide Text, ItemsText, Minified, Quoted, CleanItems, SafeItems, PrintableItems;
    var f, u := ItemsText(items, true, depth + 1), ItemsText(items, false, depth + 1);
    var tail := [CLOSE_BRACKET] + rest;
    ConstantsArePlain();
    Join4([OPEN_BRACKET], f, [CLOSE_BRACKET], rest);
    PlainIsKept([OPEN_BRACKET], f + tail);
    PlainIsKept([CLOSE_BRACKET], rest);
    ByteIsKept(CLOSE_BRACKET, rest);
    Join4([OPEN_BRACKET], u, [CLOSE_BRACKET], Minified(rest));
    Join4([OPEN_BRACKET], u, [CLOSE_BRACKET], Quoted(rest));
    PrefixCancel([OPEN_BRACKET], u, Minified(f + tail));
    PrefixFirst([OPEN_BRACKET] + u, [CLOSE_BRACKET], [OPEN_BRACKET] + Minified(f + tail));
  }

  lemma ArrayText(items: seq<Json>, format: bool, depth: nat)
    requires PrintableItems(items)
    ensures Text(Array(items), format, depth) == [OPEN_BRACKET] + ItemsText(items, format, depth + 1) + [CLOSE_BRACKET]
  {
  }

  lemma {:induction false} ItemsMinify(items: seq<Json>, depth: nat, rest: seq<byte>)
    requires PrintableItems(items) && items != []
    ensures Outcome(Minified(ItemsText(items, true, depth) + rest), ItemsText(items, false, depth), rest,
                    CleanItems(items), SafeItems(items))
    decreases items, 0
  {
    hide Text, ItemsText, Minified, Quoted, CleanItems, SafeItems, PrintableItems, Outcome, Printable, Clean,
         MinifySafe;
    ItemsParts(items, depth);
    if |items| == 1 {
      TextMinifies(items[0], depth, rest);
    } else {
      var next := ItemsText(items[1..], true, depth) + rest;
      TextMinifies(items[0], depth, [COMMA, SPACE] + next);
      ItemsMinify(items[1..], depth, rest);
      CommaMinifies(items, depth, rest);
    }
  }

  lemma ItemsParts(items: seq<Json>, depth: nat)
    requires PrintableItems(items) && items != []
    ensures Printable(items[0]) && PrintableItems(items[1..])
    ensures |items| == 1 ==> ItemsText(items, true, depth) == Text(items[0], true, depth)
    ensures |items| == 1 ==> ItemsText(items, false, depth) == Text(items[0], false, depth)
    ensures |items| == 1 ==> CleanItems(items) == Clean(items[0]) && SafeItems(items) == MinifySafe(items[0])
    ensures |items| > 1 ==>
      ItemsText(items, true, depth) == Text(items[0], true, depth) + [COMMA, SPACE] + ItemsText(items[1..], true, depth)
    ensures |items| > 1 ==>
      ItemsText(items, false, depth) == Text(items[0], false, depth) + [COMMA] + ItemsText(items[1..], false, depth)
    ensures |items| > 1 ==> CleanItems(items) == (Clean(items[0]) && CleanItems(items[1..]))
    ensures |items| > 1 ==> SafeItems(items) == (Clean(items[0]) && SafeItems(items[1..]))
  {
    if |items| == 1 {
      assert items[1..] == [] && CleanItems([]);
    }
  }

  /** Between two items: after a clean one the space goes; after one that is not, it stays. */
  lemma CommaMinifies(items: seq<Json>, depth: nat, rest: seq<byte>)
    requires PrintableItems(items) && |items| > 1
    requires Printable(items[0]) && PrintableItems(items[1..])
    requires Outcome(Minified(Text(items[0], true, depth) +
                              ([COMMA, SPACE] + (ItemsText(items[1..], true, depth) + rest))),
                     Text(items[0], false, depth), [COMMA, SPACE] + (ItemsText(items[1..], true, depth) + rest),
                     Clean(items[0]), MinifySafe(items[0]))
    requires Outcome(Minified(ItemsText(items[1..], true, depth) + rest), ItemsText(items[1..], false, depth), rest,
                     CleanItems(items[1..]), SafeItems(items[1..]))
    ensures Outcome(Minified(ItemsText(items, true, depth) + rest), ItemsText(items, false, depth), rest,
                    CleanItems(items), SafeItems(items))
  {
    hide Text, ItemsText, Minified, Quoted, CleanItems, SafeItems, PrintableItems, Printable, Clean, MinifySafe;
    var f0, u0 := Text(items[0], true, depth), Text(items[0], false, depth);
    var f1, u1 := ItemsText(items[1..], true, depth), ItemsText(items[1..], false, depth);
    ItemsParts(items, depth);
    ItemsVisible(items[1..], depth);
    CleanIsSafe(items[0]);
    CleanItemsAreSafe(items[1..]);
    Join4(f0, [COMMA, SPACE], f1, rest);
    CommaSpace(f1 + rest);
    if Clean(items[0]) {
      Join4(u0, [COMMA], u1, Minified(rest));
      Join4(u0, [COMMA], u1, Quoted(rest));
      Join4(u0, [COMMA], Minified(f1 + rest), []);
      PrefixCancel(u0 + [COMMA], u1, Minified(f1 + rest));
      assert u0 + ([COMMA] + Minified(f1 + rest)) == u0 + [COMMA] + Minified(f1 + rest);
    } else if MinifySafe(items[0]) {
      SpaceStays(u0, u1, Quoted([SPACE] + (f1 + rest)));
    } else {
      PrefixFirst(u0, [COMMA] + u1, Minified(ItemsText(items, true, depth) + rest));
      assert u0 + [COMMA] + u1 == u0 + ([COMMA] + u1);
    }
  }

  lemma CommaSpace(next: seq<byte>)
    ensures Minified([COMMA, SPACE] + next) == [COMMA] + Minified(next)
    ensures Quoted([COMMA, SPACE] + next) == [COMMA] + Quoted([SPACE] + next)
    ensures Quoted([SPACE] + next) != [] && Quoted([SPACE] + next)[0] == SPACE
  {
    ConstantsArePlain();
    assert [COMMA, SPACE] + next == [COMMA] + ([SPACE] + next);
    hide Minified, Quoted;
    PlainIsKept([COMMA], [SPACE] + next);
    BlankIsDropped([SPACE], next);
    ByteIsKept(COMMA, [SPACE] + next);
    ByteIsKept(SPACE, next);
  }

  lemma SpaceStays(u0: seq<byte>, u1: seq<byte>, q: seq<byte>)
    requires u1 != [] && u1[0] > SPACE && q != [] && q[0] == SPACE
    ensures !(u0 + [COMMA] + u1 <= u0 + ([COMMA] + q))
  {
    assert u0 + ([COMMA] + q) == u0 + [COMMA] + q;
    PrefixCancel(u0 + [COMMA], u1, q);
  }

  lemma ItemsVisible(items: seq<Json>, depth: nat)
    requires PrintableItems(items) && items != []
    ensures ItemsText(items, false, depth) != [] && ItemsText(items, false, depth)[0] > SPACE
  {
    TextVisible(items[0], depth);
    assert ItemsText(items, false, depth)[0] == Text(items[0], false, depth)[0];
  }

  lemma TextVisible(v: Json, depth: nat)
    requires Printable(v)
    ensures Text(v, false, depth)[0] > SPACE
  {
    match v
    case Number(d) => assert Text(v, false, depth) == IntText(d.Floor);
    case Object(members) => assert Text(v, false, depth)[0] == Opening(false)[0];
    case _ =>
  }

  // ---------------------------------------------------------------- objects

  /** A member, or several, of an object: what is left of a formatted `f + rest` is `u` and what is left of
      `rest`; or else it cannot be `u` followed by any visible byte. */
  ghost predicate MemberOutcome(m: seq<byte>, u: seq<byte>, rest: seq<byte>, clean: bool) {
    && (clean ==> m == u + Minified(rest))
    && (!clean ==> forall c: seq<byte> :: c != [] && c[0] > SPACE ==> !(u + c <= m))
  }

  lemma {:induction false} ObjectMinifies(members: seq<Member>, depth: nat, rest: seq<byte>)
    requires PrintableMembers(members)
    ensures Outcome(Minified(Text(Object(members), true, depth) + rest), Text(Object(members), false, depth), rest,
                    CleanMembers(members), CleanMembers(members))
    decreases members, 1
  {
    hide Text, MembersText, Minified, Quoted, CleanMembers, PrintableMembers, MemberOutcome;
    MembersMinify(members, depth + 1, Tabs(depth) + ([CLOSE_BRACE] + rest));
    BracesMinify(members, depth, rest);
  }

  lemma ObjectText(members: seq<Member>, depth: nat)
    requires PrintableMembers(members)
    ensures Text(Object(members), true, depth) ==
            [OPEN_BRACE, NEWLINE] + MembersText(members, true, depth + 1) + Tabs(depth) + [CLOSE_BRACE]
    ensures Text(Object(members), false, depth) == [OPEN_BRACE] + MembersText(members, false, depth + 1) + [CLOSE_BRACE]
  {
    assert [OPEN_BRACE] + MembersText(members, false, depth + 1) + [] ==
           [OPEN_BRACE] + MembersText(members, false, depth + 1);
  }

  lemma BracesMinify(members: seq<Member>, depth: nat, rest: seq<byte>)
    requires PrintableMembers(members)
    requires MemberOutcome(Minified(MembersText(members, true, depth + 1) + (Tabs(depth) + ([CLOSE_BRACE] + rest))),
                           MembersText(members, false, depth + 1), Tabs(depth) + ([CLOSE_BRACE] + rest),
                           CleanMembers(members))
    ensures Outcome(Minified(Text(Object(members), true, depth) + rest), Text(Object(members), false, depth), rest,
                    CleanMembers(members), CleanMembers(members))
  {
    hide Text, MembersText, Minified, Quoted, CleanMembers, PrintableMembers, Tabs;
    ObjectText(members, depth);
    var f, u := MembersText(members, true, depth + 1), MembersText(members, false, depth + 1);
    var tail := Tabs(depth) + ([CLOSE_BRACE] + rest);
    ConstantsArePlain();
    TabsAreBlank(depth);
    assert [OPEN_BRACE, NEWLINE] + f + Tabs(depth) + [CLOSE_BRACE] + rest == [OPEN_BRACE] + ([NEWLINE] + (f + tail));
    PlainIsKept([OPEN_BRACE], [NEWLINE] + (f + tail));
    BlankIsDropped([NEWLINE], f + tail);
    BlankIsDropped(Tabs(depth), [CLOSE_BRACE] + rest);
    PlainIsKept([CLOSE_BRACE], rest);
    Join4([OPEN_BRACE], u, [CLOSE_BRACE], Minified(rest));
    PrefixCancel([OPEN_BRACE], u + [CLOSE_BRACE], Minified(f + tail));
    assert [OPEN_BRACE] + u + [CLOSE_BRACE] == [OPEN_BRACE] + (u + [CLOSE_BRACE]);
  }

  lemma TabsAreBlank(n: nat)
    ensures AllBlank(Tabs(n))
  {
  }

  lemma {:induction false} MembersMinify(members: seq<Member>, depth: nat, rest: seq<byte>)
    requires PrintableMembers(members)
    ensures MemberOutcome(Minified(MembersText(members, true, depth) + rest), MembersText(members, false, depth), rest,
                          CleanMembers(members))
    decreases members, 0
  {
    hide Text, MembersText, MemberText, Minified, Quoted, CleanMembers, CleanMember, PrintableMembers, MemberOutcome,
         Printable;
    if members == [] {
      NoMembersMinify(depth, rest);
    } else {
      MembersParts(members, depth);
      var x, last := members[0], |members| == 1;
      TextMinifies(x.value, depth, AfterMember(true, last) + (MembersText(members[1..], true, depth) + rest));
      MemberMinifies(x, last, depth, MembersText(members[1..], true, depth) + rest);
      MembersMinify(members[1..], depth, rest);
      MembersJoin(members, depth, rest);
    }
  }

  lemma NoMembersMinify(depth: nat, rest: seq<byte>)
    ensures MemberOutcome(Minified(MembersText([], true, depth) + rest), MembersText([], false, depth), rest,
                          CleanMembers([]))
  {
    assert [] + rest == rest;
    assert [] + Minified(rest) == Minified(rest);
  }

  lemma MembersParts(members: seq<Member>, depth: nat)
    requires PrintableMembers(members) && members != []
    ensures NulFree(members[0].key) && Printable(members[0].value) && PrintableMembers(members[1..])
    ensures CleanMembers(members) == (CleanMember(members[0]) && CleanMembers(members[1..]))
    ensures MembersText(members, true, depth) ==
            MemberText(members[0], |members| == 1, true, depth) + MembersText(members[1..], true, depth)
    ensures MembersText(members, false, depth) ==
            MemberText(members[0], |members| == 1, false, depth) + MembersText(members[1..], false, depth)
  {
  }

  lemma MembersJoin(members: seq<Member>, depth: nat, rest: seq<byte>)
    requires PrintableMembers(members) && members != [] && PrintableMembers(members[1..])
    requires NulFree(members[0].key) && Printable(members[0].value)
    requires MemberOutcome(Minified(MemberText(members[0], |members| == 1, true, depth) +
                                    (MembersText(members[1..], true, depth) + rest)),
                           MemberText(members[0], |members| == 1, false, depth),
                           MembersText(members[1..], true, depth) + rest,
                           CleanMember(members[0]))
    requires MemberOutcome(Minified(MembersText(members[1..], true, depth) + rest),
                           MembersText(members[1..], false, depth), rest,
                           CleanMembers(members[1..]))
    ensures MemberOutcome(Minified(MembersText(members, true, depth) + rest), MembersText(members, false, depth), rest,
                          CleanMembers(members))
  {
    hide Text, MembersText, MemberText, Minified, Quoted, CleanMembers, CleanMember, PrintableMembers, Printable,
         NulFree;
    MembersParts(members, depth);
    var f0, u0 := MemberText(members[0], |members| == 1, true, depth),
                  MemberText(members[0], |members| == 1, false, depth);
    var f1, u1 := MembersText(members[1..], true, depth), MembersText(members[1..], false, depth);
    var m := Minified(f0 + f1 + rest);
    Regroup(f0, f1, rest);
    if CleanMember(members[0]) {
      Regroup(u0, u1, Minified(rest));
      forall c: seq<byte> | !CleanMembers(members[1..]) && c != [] && c[0] > SPACE ensures !(u0 + u1 + c <= m) {
        Regroup(u0, u1, c);
        PrefixCancel(u0, u1 + c, Minified(f1 + rest));
      }
    } else {
      MembersVisible(members[1..], depth);
      forall c: seq<byte> | c != [] && c[0] > SPACE ensures !(u0 + u1 + c <= m) {
        Regroup(u0, u1, c);
        assert (u1 + c)[0] > SPACE;
      }
    }
  }

  lemma MembersVisible(members: seq<Member>, depth: nat)
    requires PrintableMembers(members)
    ensures MembersText(members, false, depth) != [] ==> MembersText(members, false, depth)[0] > SPACE
  {
    if members != [] {
      var x := members[0];
      assert MemberText(x, |members| == 1, false, depth)[0] == ([] + StringText(x.key))[0] == QUOTE;
      assert MembersText(members, false, depth)[0] == MemberText(x, |members| == 1, false, depth)[0];
    } else {
      assert MembersText(members, false, depth) == [];
    }
  }

  // ---------------------------------------------------------------- one member

  lemma MemberParts(x: Member, last: bool, depth: nat)
    requires NulFree(x.key) && Printable(x.value)
    ensures MemberText(x, last, true, depth) ==
            Tabs(depth) + StringText(x.key) + [COLON, TAB] + Text(x.value, true, depth) + AfterMember(true, last)
    ensures MemberText(x, last, false, depth) ==
            StringText(x.key) + [COLON] + Text(x.value, false, depth) + AfterMember(false, last)
  {
    assert [] + StringText(x.key) == StringText(x.key);
  }

  lemma MemberMinifies(x: Member, last: bool, depth: nat, rest: seq<byte>)
    requires NulFree(x.key) && Printable(x.value)
    requires Outcome(Minified(Text(x.value, true, depth) + (AfterMember(true, last) + rest)),
                     Text(x.value, false, depth),
                     AfterMember(true, last) + rest, Clean(x.value), MinifySafe(x.value))
    ensures MemberOutcome(Minified(MemberText(x, last, true, depth) + rest), MemberText(x, last, false, depth), rest,
                          CleanMember(x))
  {
    hide Text, MemberText, Minified, Quoted, Clean, MinifySafe, Printable, NulFree, StringText, Tabs, AfterMember;
    MemberParts(x, last, depth);
    var k, f, u := StringText(x.key), Text(x.value, true, depth), Text(x.value, false, depth);
    var tail := AfterMember(true, last) + rest;
    TabsAreBlank(depth);
    MemberJoin(Tabs(depth), k, f, AfterMember(true, last), rest);
    BlankIsDropped(Tabs(depth), k + ([COLON, TAB] + (f + tail)));
    StringIsKept(x.key, [COLON, TAB] + (f + tail));
    ColonMinifies(f + tail);
    CleanIsSafe(x.value);
    TextVisible(x.value, depth);
    if EndsInBackslash(x.key) {
      TabStays(k, u, AfterMember(false, last), Quoted([TAB] + (f + tail)));
    } else if !MinifySafe(x.value) {
      ValueDiffers(k, u, AfterMember(false, last), Minified(f + tail));
    } else {
      AfterMinifies(k, u, last, rest, Clean(x.value), Minified(f + tail));
    }
  }

  lemma MemberJoin(tabs: seq<byte>, k: seq<byte>, f: seq<byte>, a: seq<byte>, rest: seq<byte>)
    ensures tabs + k + [COLON, TAB] + f + a + rest == tabs + (k + ([COLON, TAB] + (f + (a + rest))))
  {
  }

  lemma ColonMinifies(next: seq<byte>)
    ensures Minified([COLON, TAB] + next) == [COLON] + Minified(next)
    ensures Quoted([COLON, TAB] + next) == [COLON] + Quoted([TAB] + next)
    ensures Quoted([TAB] + next) != [] && Quoted([TAB] + next)[0] == TAB
  {
    ConstantsArePlain();
    assert [COLON, TAB] + next == [COLON] + ([TAB] + next);
    hide Minified, Quoted;
    PlainIsKept([COLON], [TAB] + next);
    BlankIsDropped([TAB], next);
    ByteIsKept(COLON, [TAB] + next);
    ByteIsKept(TAB, next);
  }

  lemma TabStays(k: seq<byte>, u: seq<byte>, a: seq<byte>, q: seq<byte>)
    requires u != [] && u[0] > SPACE && q != [] && q[0] == TAB
    ensures forall c: seq<byte> :: c != [] && c[0] > SPACE ==> !(k + [COLON] + u + a + c <= k + ([COLON] + q))
  {
    forall c: seq<byte> | c != [] && c[0] > SPACE ensures !(k + [COLON] + u + a + c <= k + ([COLON] + q)) {
      assert k + ([COLON] + q) == k + [COLON] + q;
      assert k + [COLON] + u + a + c == k + [COLON] + (u + a + c);
      PrefixCancel(k + [COLON], u + a + c, q);
      assert (u + a + c)[0] == u[0];
    }
  }

  lemma ValueDiffers(k: seq<byte>, u: seq<byte>, a: seq<byte>, m: seq<byte>)
    requires !(u <= m)
    ensures forall c: seq<byte> :: c != [] && c[0] > SPACE ==> !(k + [COLON] + u + a + c <= k + ([COLON] + m))
  {
    forall c: seq<byte> | c != [] && c[0] > SPACE ensures !(k + [COLON] + u + a + c <= k + ([COLON] + m)) {
      assert k + ([COLON] + m) == k + [COLON] + m;
      assert k + [COLON] + u + a + c == k + [COLON] + (u + (a + c));
      PrefixCancel(k + [COLON], u + (a + c), m);
      PrefixFirst(u, a + c, m);
    }
  }

  lemma AfterMinifies(k: seq<byte>, u: seq<byte>, last: bool, rest: seq<byte>, clean: bool, m: seq<byte>)
    requires clean ==> m == u + Minified(AfterMember(true, last) + rest)
    requires !clean ==> m == u + Quoted(AfterMember(true, last) + rest)
    ensures MemberOutcome(k + ([COLON] + m), k + [COLON] + u + AfterMember(false, last), rest, clean)
  {
    hide Minified, Quoted, AfterMember;
    AfterMemberMinifies(last, rest);
    var a := AfterMember(false, last);
    var q := Quoted(AfterMember(true, last) + rest);
    if clean {
      assert k + ([COLON] + (u + (a + Minified(rest)))) == k + [COLON] + u + a + Minified(rest);
    } else {
      forall c: seq<byte> | c != [] && c[0] > SPACE ensures !(k + [COLON] + u + a + c <= k + ([COLON] + m)) {
        assert k + ([COLON] + (u + q)) == k + [COLON] + u + q;
        assert k + [COLON] + u + a + c == k + [COLON] + u + (a + c);
        PrefixCancel(k + [COLON] + u, a + c, q);
        assert (a + c)[|a|] == c[0];
      }
    }
  }

  lemma AfterMemberMinifies(last: bool, rest: seq<byte>)
    ensures Minified(AfterMember(true, last) + rest) == AfterMember(false, last) + Minified(rest)
    ensures var q := Quoted(AfterMember(true, last) + rest);
      |q| > |AfterMember(false, last)| && q[|AfterMember(false, last)|] == NEWLINE
  {
    ConstantsArePlain();
    hide Minified, Quoted;
    BlankIsDropped([NEWLINE], rest);
    ByteIsKept(NEWLINE, rest);
    if last {
      assert AfterMember(true, last) + rest == [NEWLINE] + rest;
      assert [] + Minified(rest) == Minified(rest);
    } else {
      assert AfterMember(true, last) + rest == [COMMA] + ([NEWLINE] + rest);
      PlainIsKept([COMMA], [NEWLINE] + rest);
      ByteIsKept(COMMA, [NEWLINE] + rest);
    }
  }

  // ---------------------------------------------------------------- whole texts

  /** Minifying the formatted print of a tree gives the unformatted print exactly when a string that ends in
      a backslash, if there is one, is followed by nothing but closing brackets. */
  lemma MinifyOfFormatted(v: Json)
    requires Printable(v)
    ensures Minified(Text(v, true, 0)) == Text(v, false, 0) <==> MinifySafe(v)
  {
    hide Text, Minified, Quoted, MinifySafe, Clean;
    TextMinifies(v, 0, []);
    CleanIsSafe(v);
    var f, u := Text(v, true, 0), Text(v, false, 0);
    assert f + [] == f && u + [] == u;
    NothingLeft();
  }

  lemma NothingLeft()
    ensures Minified([]) == [] == Quoted([])
  {
  }

  /** In particular whenever no string and no key ends in a backslash; and then the unformatted print is
      already minified. */
  lemma MinifyOfClean(v: Json)
    requires Printable(v) && Clean(v)
    ensures Minified(Text(v, true, 0)) == Text(v, false, 0) == Minified(Text(v, false, 0))
  {
    CleanIsSafe(v);
    MinifyOfFormatted(v);
    Idempotent(Text(v, true, 0));
  }

  /** The exclusion is needed: `["\\", 1]` keeps its space. */
  lemma BackslashExample()
    ensures var v := Array([String([BACKSLASH]), Number(1.0)]);
      Printable(v) && Minified(Text(v, true, 0)) != Text(v, false, 0)
  {
    var items := [String([BACKSLASH]), Number(1.0)];
    assert items[1..] == [Number(1.0)] && [Number(1.0)][1..] == [];
    assert IsInt32(1.0) by { assert 1.0 == 1.0.Floor as real; }
    assert PrintableItems([]) && PrintableItems([Number(1.0)]) && PrintableItems(items);
    assert !Clean(String([BACKSLASH])) && !SafeItems(items);
    MinifyOfFormatted(Array(items));
  }
}
