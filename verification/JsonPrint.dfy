/** The printer of ser2mqtt/src/cJSON.c: a buffer that `ensure` grows by reallocation (or does not,
    for a caller's own buffer), written in place by the mutually recursive print functions. */
module JsonPrint {
  import opened Bytes
  import opened JsonTree
  import opened JsonText

  /** A position in `p` where the text of the tree ends: the buffer holds `before`, then the text, then NUL. */
  ghost predicate Holds(p: PrintBuffer, before: seq<byte>, text: seq<byte>)
    reads p, p.buffer
  {
    |before| + |text| < p.buffer.Length &&
    p.buffer[..|before| + |text| + 1] == before + text + [0]
  }

  class PrintBuffer {
    var buffer: array<byte>  // length is buffer.Length
    var offset: nat
    var depth: nat
    const noalloc: bool
    const format: bool

    constructor (buffer: array<byte>, noalloc: bool, format: bool)
      requires buffer.Length <= INT_MAX
      ensures this.buffer == buffer && offset == 0 && depth == 0
      ensures this.noalloc == noalloc && this.format == format
      ensures Ready() && Written() == []
    {
      this.buffer := buffer;
      this.offset := 0;
      this.depth := 0;
      this.noalloc := noalloc;
      this.format := format;
    }

    ghost predicate Ready()
      reads this
    {
      buffer.Length <= INT_MAX && (offset < buffer.Length || offset == buffer.Length == 0)
    }

    /** The bytes before the offset. */
    ghost function Written(): (w: seq<byte>)
      requires Ready()
      reads this, buffer
      ensures |w| == offset
    {
      buffer[..offset]
    }

    /** How many bytes there can be at most. */
    function Limit(): int
      reads this
    {
      if noalloc then buffer.Length else INT_MAX
    }

    /** Growing keeps what is written and never gives up a buffer that may not be replaced. */
    twostate predicate Kept()
      reads this, buffer
    {
      (buffer == old(buffer) || (fresh(buffer) && !noalloc))
    }

    /** `ensure`. An offset that is not inside a buffer of some length is refused; an empty buffer can only
        have been started with. */
    method Ensure(needed: nat) returns (ok: bool)
      requires buffer.Length <= INT_MAX && (buffer.Length == 0 ==> offset == 0)
      modifies this`buffer
      ensures Kept() && Limit() == old(Limit())
      ensures ok <==> old(Ready()) && offset + needed + 1 <= Limit()
      ensures ok ==> offset + needed + 1 <= buffer.Length
      ensures !ok ==> buffer == old(buffer)
      ensures old(Ready()) ==> Ready() && Written() == old(Written())
      ensures ok && old(buffer.Length) >= offset + needed + 1 ==> buffer == old(buffer)
      ensures ok && old(buffer.Length) < offset + needed + 1 ==>
        buffer.Length == if offset + needed + 1 > INT_MAX / 2 then INT_MAX else 2 * (offset + needed + 1)
    {
      if buffer.Length > 0 && offset >= buffer.Length {
        return false;
      }
      if needed > INT_MAX {
        return false;
      }
      var total := needed + offset + 1;
      if total <= buffer.Length {
        return true;
      }
      if noalloc {
        return false;
      }
      var newsize;
      if total > INT_MAX / 2 {
        if total <= INT_MAX {
          newsize := INT_MAX;
        } else {
          return false;
        }
      } else {
        newsize := total * 2;
      }
      Reallocate(newsize);
      return true;
    }

    method Reallocate(newsize: nat)
      requires Ready() && !noalloc && buffer.Length < newsize <= INT_MAX
      modifies this`buffer
      ensures Ready() && fresh(buffer) && buffer.Length == newsize
      ensures buffer[..old(buffer.Length)] == old(buffer[..])
      ensures Written() == old(Written())
    {
      var current := buffer;
      var newbuffer := new byte[newsize];
      for i := 0 to current.Length
        invariant newbuffer[..i] == current[..i]
      {
        newbuffer[i] := current[i];
      }
      assert current[..current.Length] == current[..];
      buffer := newbuffer;
      assert newbuffer[..offset] == newbuffer[..current.Length][..offset];
    }

    /** `*output_pointer++ = ...` for each byte of `text`, from position `at` on. */
    method PutAt(at: nat, text: seq<byte>)
      requires at + |text| <= buffer.Length
      modifies buffer
      ensures buffer[..at + |text|] == old(buffer[..at]) + text
    {
      for i := 0 to |text|
        invariant buffer[..at] == old(buffer[..at])
        invariant buffer[at..at + i] == text[..i]
      {
        buffer[at + i] := text[i];
      }
      assert buffer[..at + |text|] == buffer[..at] + buffer[at..at + |text|];
      assert text[..|text|] == text;
    }

    /** `strlen` from the offset. */
    method UpdateOffset(ghost before: seq<byte>, ghost text: seq<byte>)
      requires Holds(this, before, text) && NulFree(text)
      requires |before| <= offset <= |before| + |text| && buffer.Length <= INT_MAX
      modifies this`offset
      ensures Ready() && offset == |before| + |text| && Written() == before + text
    {
      ghost var all := before + text + [0];
      assert buffer[|before| + |text|] == all[|before| + |text|];
      forall i | |before| <= i < |before| + |text|
        ensures buffer[i] != 0
      {
        assert buffer[i] == all[i] == text[i - |before|];
      }
      var end := offset;
      while buffer[end] != 0
        invariant offset <= end <= |before| + |text|
        decreases buffer.Length - end
      {
        end := end + 1;
      }
      offset := end;
      assert buffer[..offset] == all[..offset];
    }

    /** What every print function promises: it succeeds exactly when the text, its NUL and one spare
        byte fit; then the text stands after what was written before, and the offset is somewhere in
        it, so that `UpdateOffset` will move it to the end. */
    twostate predicate Printed(ok: bool, text: seq<byte>)
      requires old(Ready())
      reads this, buffer
    {
      && Kept()
      && Limit() == old(Limit())
      && (ok <==> old(offset) + |text| + 2 <= Limit())
      && (ok ==>
            && Ready()
            && Holds(this, old(Written()), text)
            && old(offset) <= offset <= old(offset) + |text|
            && depth == old(depth))
    }

    /** The three constants: `ensure`, then `strcpy` with its NUL. */
    method PrintConstant(text: seq<byte>) returns (ok: bool)
      requires Ready()
      modifies this, buffer
      ensures Printed(ok, text)
    {
      ok := Ensure(|text| + 1);
      if ok {
        PutAt(offset, text + [0]);
      }
    }

    method PrintNumber(valueint: int) returns (ok: bool)
      requires Ready() && INT_MIN <= valueint <= INT_MAX
      modifies this, buffer
      ensures Printed(ok, IntText(valueint))
    {
      var numberBuffer := IntText(valueint);
      ok := Ensure(|numberBuffer| + 1);
      if ok {
        PutAt(offset, numberBuffer + [0]);
        offset := offset + |numberBuffer|;
      }
    }

    /** `print_string_ptr`: NULL prints as the empty string does. */
    method PrintStringPtr(input: Option<seq<byte>>) returns (ok: bool)
      requires Ready() && (input.Some? ==> NulFree(input.value))
      modifies this, buffer
      ensures Printed(ok, StringText(if input.Some? then input.value else []))
    {
      hide StringText;
      match input
      case None => ok := PrintEmpty();
      case Some(s) => ok := PrintText(s);
    }

    method PrintEmpty() returns (ok: bool)
      requires Ready()
      modifies this, buffer
      ensures Printed(ok, StringText([]))
    {
      EmptyText();
      hide StringText;
      ok := Ensure(3);
      if ok {
        PutAt(offset, [QUOTE, QUOTE, 0]);
      }
    }

    method PrintText(input: seq<byte>) returns (ok: bool)
      requires Ready() && NulFree(input)
      modifies this, buffer
      ensures Printed(ok, StringText(input))
    {
      StringTextLength(input);
      hide StringText, Escaped;
      var escapeCharacters := CountEscapes(input);
      var outputLength := |input| + escapeCharacters;
      ok := Ensure(outputLength + 3);
      if ok {
        WriteString(input, escapeCharacters);
      }
    }

    method WriteString(input: seq<byte>, escapeCharacters: nat)
      requires |input| + escapeCharacters == |Escaped(input)|
      requires offset + |StringText(input)| < buffer.Length
      modifies buffer
      ensures buffer[..offset + |StringText(input)| + 1] == old(buffer[..offset]) + StringText(input) + [0]
    {
      hide StringText, Escaped, Escape;
      var outputLength := |input| + escapeCharacters;
      StringTextLength(input);
      StringTextWithNul(buffer[..offset], input);
      if escapeCharacters == 0 {
        EscapedPlain(input);
        PutAt(offset, [QUOTE] + input + [QUOTE, 0]);
      } else {
        PutAt(offset, [QUOTE]);
        CopyEscaped(offset + 1, input);
        PutAt(offset + 1 + outputLength, [QUOTE, 0]);
      }
    }

    method CopyEscaped(at: nat, input: seq<byte>)
      requires at + |Escaped(input)| <= buffer.Length
      modifies buffer
      ensures buffer[..at + |Escaped(input)|] == old(buffer[..at]) + Escaped(input)
    {
      hide Escape;
      var output := at;
      ghost var done: seq<byte> := [];
      assert input[0..] == input;
      for i := 0 to |input|
        invariant done + Escaped(input[i..]) == Escaped(input)
        invariant output == at + |done|
        invariant buffer[..output] == old(buffer[..at]) + done
      {
        EscapedStep(done, input, i);
        WriteEscaped(output, input[i]);
        output := output + |Escape(input[i])|;
        done := done + Escape(input[i]);
      }
      assert done == Escaped(input);
    }

    method WriteEscaped(output: nat, c: byte)
      requires output + |Escape(c)| <= buffer.Length
      modifies buffer
      ensures buffer[..output + |Escape(c)|] == old(buffer[..output]) + Escape(c)
    {
      if c > 31 && c != QUOTE && c != BACKSLASH {
        PutAt(output, [c]);
      } else {
        PutAt(output, EscapeSequence(c));
      }
    }

    // -------------------------------------------------------------- trees

    /** As `Printed`, but the offset has already been moved to the end of the text. */
    twostate predicate Appended(ok: bool, text: seq<byte>)
      requires old(Ready())
      reads this, buffer
    {
      && Kept()
      && Limit() == old(Limit())
      && (ok <==> old(offset) + |text| + 2 <= Limit())
      && (ok ==> Ready() && Written() == old(Written()) + text && depth == old(depth))
    }

    /** A part of a container, possibly empty: it fails only if there is no room for it. */
    twostate predicate Extended(ok: bool, text: seq<byte>)
      requires old(Ready())
      reads this, buffer
    {
      && Kept()
      && Limit() == old(Limit())
      && (old(offset) + |text| + 2 <= Limit() ==> ok)
      && (ok ==> Ready() && Written() == old(Written()) + text && depth == old(depth))
    }

    /** `ensure`, write, and move the offset past what was written. */
    method Advance(text: seq<byte>, needed: nat) returns (ok: bool)
      requires Ready() && |text| <= needed
      modifies this, buffer
      ensures Kept() && Limit() == old(Limit()) && depth == old(depth)
      ensures ok <==> old(offset) + needed + 1 <= Limit()
      ensures ok ==> Ready() && Written() == old(Written()) + text
    {
      ok := Ensure(needed);
      if ok {
        PutAt(offset, text);
        offset := offset + |text|;
      }
    }

    method PrintValue(v: Json) returns (ok: bool)
      requires Ready() && Printable(v)
      modifies this, buffer
      ensures Printed(ok, Text(v, format, old(depth)))
      decreases v, 1
    {
      match v
      case Null => ok := PrintConstant(NULL_TEXT);
      case False => ok := PrintConstant(FALSE_TEXT);
      case True => ok := PrintConstant(TRUE_TEXT);
      case Number(d) => ok := PrintNumber(d.Floor);
      case String(s) => ok := PrintStringPtr(Some(s));
      case Array(items) => ok := PrintArray(items);
      case Object(members) => ok := PrintObject(members);
    }

    /** One turn of the loop of `print_array`. */
    method PrintItem(v: Json, last: bool) returns (ok: bool)
      requires Ready() && Printable(v)
      modifies this, buffer
      ensures Appended(ok, Text(v, format, old(depth)) + if last then [] else Separator(format))
      decreases v, 2
    {
      ghost var before, text := Written(), Text(v, format, depth);
      ok := PrintValue(v);
      if !ok {
        return;
      }
      UpdateOffset(before, text);
      if !last {
        var length := if format then 2 else 1;
        ok := Advance(Separator(format), length + 1);
        assert before + text + Separator(format) == before + (text + Separator(format));
      } else {
        assert text + [] == text;
      }
    }

    method PrintArray(items: seq<Json>) returns (ok: bool)
      requires Ready() && PrintableItems(items)
      modifies this, buffer
      ensures Printed(ok, Text(Array(items), format, old(depth)))
      decreases items, 2
    {
      ArrayParts(Written(), items, format, depth);
      hide Text, ItemsText, PrintableItems;
      ok := Advance([OPEN_BRACKET], 1);
      if !ok {
        return;
      }
      depth := depth + 1;
      ok := PrintArrayBody(items);
    }

    /** The rest of `print_array` after the opening bracket. */
    method PrintArrayBody(items: seq<Json>) returns (ok: bool)
      requires Ready() && PrintableItems(items) && depth > 0
      modifies this, buffer
      ensures Kept() && Limit() == old(Limit())
      ensures ok <==> old(offset) + |ArrayBody(items, format, old(depth))| + 2 <= Limit()
      ensures ok ==> Ready() && Holds(this, old(Written()), ArrayBody(items, format, old(depth)))
      ensures ok ==> old(offset) <= offset <= old(offset) + |ArrayBody(items, format, old(depth))|
      ensures ok ==> depth == old(depth) - 1
      decreases items, 1
    {
      ghost var before, all := Written(), ItemsText(items, format, depth);
      assert ArrayBody(items, format, depth) == all + [CLOSE_BRACKET];
      hide ItemsText, PrintableItems, ArrayBody;
      Assoc(before, all, [CLOSE_BRACKET]);
      ok := PrintItems(items);
      if !ok {
        return;
      }
      ok := Close([CLOSE_BRACKET], 2);
    }

    method PrintItems(items: seq<Json>) returns (ok: bool)
      requires Ready() && PrintableItems(items)
      modifies this, buffer
      ensures Extended(ok, ItemsText(items, format, old(depth)))
      decreases items, 0
    {
      ok := true;
      ghost var before, all := Written(), ItemsText(items, format, depth);
      ghost var done: seq<byte> := [];
      assert items[0..] == items;
      for i := 0 to |items|
        invariant Ready() && Kept() && Limit() == old(Limit()) && depth == old(depth) && ok
        invariant PrintableItems(items[i..])
        invariant done + ItemsText(items[i..], format, depth) == all
        invariant Written() == before + done
      {
        var last := i + 1 == |items|;
        ghost var piece := Text(items[i], format, depth) + if last then [] else Separator(format);
        ItemsStep(done, all, items, i, format, depth);
        hide Text, ItemsText, PrintableItems, Separator;
        ok := PrintItem(items[i], last);
        if !ok {
          return;
        }
        Assoc(before, done, piece);
        done := done + piece;
      }
      assert done == all;
    }

    /** The closing bracket: `ensure`, write with the NUL, leave the offset where it is. */
    method Close(text: seq<byte>, needed: nat) returns (ok: bool)
      requires Ready() && needed == |text| + 1 && depth > 0
      modifies this, buffer
      ensures Kept() && Limit() == old(Limit())
      ensures ok <==> old(offset) + needed + 1 <= Limit()
      ensures ok ==> Ready() && Holds(this, old(Written()), text) && offset == old(offset) && depth == old(depth) - 1
    {
      ok := Ensure(needed);
      if ok {
        PutAt(offset, text + [0]);
        assert Written() + (text + [0]) == Written() + text + [0];
        depth := depth - 1;
      }
    }

    method PrintObject(members: seq<Member>) returns (ok: bool)
      requires Ready() && PrintableMembers(members)
      modifies this, buffer
      ensures Printed(ok, Text(Object(members), format, old(depth)))
      decreases members, 2
    {
      ObjectParts(Written(), members, format, depth);
      hide Text, MembersText, PrintableMembers, Opening, Indent;
      var length := if format then 2 else 1;
      ok := Advance(Opening(format), length + 1);
      if !ok {
        return;
      }
      depth := depth + 1;
      ok := PrintObjectBody(members);
    }

    /** The rest of `print_object` after the opening brace. */
    method PrintObjectBody(members: seq<Member>) returns (ok: bool)
      requires Ready() && PrintableMembers(members) && depth > 0
      modifies this, buffer
      ensures Kept() && Limit() == old(Limit())
      ensures ok <==> old(offset) + |ObjectBody(members, format, old(depth))| + 2 <= Limit()
      ensures ok ==> Ready() && Holds(this, old(Written()), ObjectBody(members, format, old(depth)))
      ensures ok ==> old(offset) <= offset <= old(offset) + |ObjectBody(members, format, old(depth))|
      ensures ok ==> depth == old(depth) - 1
      decreases members, 1
    {
      ghost var before, all := Written(), MembersText(members, format, depth);
      var closing := Indent(format, depth - 1) + [CLOSE_BRACE];
      assert ObjectBody(members, format, depth) == all + closing;
      assert |closing| == if format then depth else 1;
      hide MembersText, PrintableMembers, Indent, ObjectBody;
      Assoc(before, all, closing);
      ok := PrintMembers(members);
      if !ok {
        return;
      }
      ok := Close(closing, if format then depth + 1 else 2);
    }

    /** One turn of the loop of `print_object`. */
    method PrintMember(m: Member, last: bool) returns (ok: bool)
      requires Ready() && NulFree(m.key) && Printable(m.value)
      modifies this, buffer
      ensures Extended(ok, MemberText(m, last, format, old(depth)))
      decreases m, 0
    {
      MemberParts(Written(), m, last, format, depth);
      hide Text, MemberText, StringText, Indent, AfterKey;
      ok := PrintKey(m.key);
      if !ok {
        return;
      }
      ghost var before, text := Written(), Text(m.value, format, depth);
      ok := PrintValue(m.value);
      if !ok {
        return;
      }
      UpdateOffset(before, text);
      var length := (if format then 1 else 0) + (if last then 0 else 1);
      ok := Advance(AfterMember(format, last), length + 1);
    }

    method PrintKey(key: seq<byte>) returns (ok: bool)
      requires Ready() && NulFree(key)
      modifies this, buffer
      ensures Extended(ok, Indent(format, old(depth)) + StringText(key) + AfterKey(format))
    {
      Assoc4(Written(), Indent(format, depth), StringText(key), AfterKey(format));
      hide StringText, Indent, AfterKey;
      ok := PrintIndent();
      if !ok {
        return;
      }
      ghost var before := Written();
      ok := PrintStringPtr(Some(key));
      if !ok {
        return;
      }
      UpdateOffset(before, StringText(key));
      ok := PrintColon();
    }

    method PrintIndent() returns (ok: bool)
      requires Ready()
      modifies this, buffer
      ensures Extended(ok, Indent(format, old(depth)))
    {
      ok := true;
      if format {
        ok := Advance(Tabs(depth), depth);
      }
    }

    method PrintColon() returns (ok: bool)
      requires Ready()
      modifies this, buffer
      ensures Extended(ok, AfterKey(format))
      ensures ok ==> old(offset) + |AfterKey(format)| + 1 <= Limit()
    {
      ok := Advance(AfterKey(format), if format then 2 else 1);
    }

    method PrintMembers(members: seq<Member>) returns (ok: bool)
      requires Ready() && PrintableMembers(members)
      modifies this, buffer
      ensures Extended(ok, MembersText(members, format, old(depth)))
      decreases members, 0
    {
      hide Text, MemberText, Printable, NulFree;
      ok := true;
      ghost var before, all := Written(), MembersText(members, format, depth);
      ghost var done: seq<byte> := [];
      assert members[0..] == members;
      for i := 0 to |members|
        invariant Ready() && Kept() && Limit() == old(Limit()) && depth == old(depth) && ok
        invariant PrintableMembers(members[i..])
        invariant done + MembersText(members[i..], format, depth) == all
        invariant Written() == before + done
      {
        var last := i + 1 == |members|;
        MembersStep(done, all, members, i, format, depth);
        ghost var piece := MemberText(members[i], last, format, depth);
        hide MembersText, PrintableMembers;
        ok := PrintMember(members[i], last);
        if !ok {
          return;
        }
        Assoc(before, done, piece);
        done := done + piece;
      }
      assert done == all;
    }
  }

  lemma Assoc(a: seq<byte>, b: seq<byte>, c: seq<byte>)
    ensures a + b + c == a + (b + c)
  {
  }

  lemma Assoc4(a: seq<byte>, b: seq<byte>, c: seq<byte>, d: seq<byte>)
    ensures a + b + c + d == a + (b + c + d)
  {
  }

  /** What follows the opening bracket of an array. */
  ghost function ArrayBody(items: seq<Json>, format: bool, depth: nat): seq<byte>
    requires PrintableItems(items)
  {
    ItemsText(items, format, depth) + [CLOSE_BRACKET]
  }

  lemma ArrayParts(before: seq<byte>, items: seq<Json>, format: bool, depth: nat)
    requires PrintableItems(items)
    ensures var body := ArrayBody(items, format, depth + 1);
      before + [OPEN_BRACKET] + body == before + Text(Array(items), format, depth) &&
      |Text(Array(items), format, depth)| == 1 + |body|
  {
    var all := ItemsText(items, format, depth + 1);
    assert Text(Array(items), format, depth) == [OPEN_BRACKET] + all + [CLOSE_BRACKET];
    hide Text, ItemsText;
    Assoc([OPEN_BRACKET], all, [CLOSE_BRACKET]);
    Assoc(before, [OPEN_BRACKET], all + [CLOSE_BRACKET]);
  }

  /** What follows the opening brace of an object, its members indented by `depth`. */
  ghost function ObjectBody(members: seq<Member>, format: bool, depth: nat): seq<byte>
    requires PrintableMembers(members) && depth > 0
  {
    MembersText(members, format, depth) + (Indent(format, depth - 1) + [CLOSE_BRACE])
  }

  lemma ObjectParts(before: seq<byte>, members: seq<Member>, format: bool, depth: nat)
    requires PrintableMembers(members)
    ensures var body := ObjectBody(members, format, depth + 1);
      before + Opening(format) + body == before + Text(Object(members), format, depth) &&
      |Text(Object(members), format, depth)| == |Opening(format)| + |body| &&
      |Opening(format)| == if format then 2 else 1
  {
    var all, indent := MembersText(members, format, depth + 1), Indent(format, depth);
    assert Text(Object(members), format, depth) == Opening(format) + all + indent + [CLOSE_BRACE];
    hide Text, MembersText, Opening, Indent;
    Assoc(Opening(format) + all, indent, [CLOSE_BRACE]);
    Assoc(Opening(format), all, indent + [CLOSE_BRACE]);
    Assoc(before, Opening(format), all + (indent + [CLOSE_BRACE]));
  }

  lemma MemberParts(before: seq<byte>, m: Member, last: bool, format: bool, depth: nat)
    requires NulFree(m.key) && Printable(m.value)
    ensures var head, text, tail := Indent(format, depth) + StringText(m.key) + AfterKey(format),
                                    Text(m.value, format, depth), AfterMember(format, last);
      before + head + text + tail == before + MemberText(m, last, format, depth) &&
      |MemberText(m, last, format, depth)| == |head| + |text| + |tail|
  {
    var head, text, tail := Indent(format, depth) + StringText(m.key) + AfterKey(format),
                            Text(m.value, format, depth), AfterMember(format, last);
    assert MemberText(m, last, format, depth) == head + text + tail;
    hide MemberText, Text, StringText, Indent, AfterKey, AfterMember;
    Assoc4(before, head, text, tail);
  }

  lemma MembersStep(done: seq<byte>, all: seq<byte>, members: seq<Member>, i: nat, format: bool, depth: nat)
    requires i < |members| && PrintableMembers(members[i..])
    requires done + MembersText(members[i..], format, depth) == all
    ensures NulFree(members[i].key) && Printable(members[i].value) && PrintableMembers(members[i + 1..])
    ensures var piece := MemberText(members[i], i + 1 == |members|, format, depth);
      done + piece + MembersText(members[i + 1..], format, depth) == all
  {
    assert members[i..][1..] == members[i + 1..];
  }

  lemma ItemsStep(done: seq<byte>, all: seq<byte>, items: seq<Json>, i: nat, format: bool, depth: nat)
    requires i < |items| && PrintableItems(items[i..])
    requires done + ItemsText(items[i..], format, depth) == all
    ensures Printable(items[i]) && PrintableItems(items[i + 1..])
    ensures var piece := Text(items[i], format, depth) + if i + 1 == |items| then [] else Separator(format);
      done + piece + ItemsText(items[i + 1..], format, depth) == all
  {
    assert items[i..][1..] == items[i + 1..];
  }

  lemma EscapedStep(done: seq<byte>, input: seq<byte>, i: nat)
    requires i < |input|
    ensures done + Escaped(input[i..]) == (done + Escape(input[i])) + Escaped(input[i + 1..])
    ensures forall b: seq<byte> :: b + done + Escape(input[i]) == b + (done + Escape(input[i]))
  {
    assert input[i..][1..] == input[i + 1..];
  }

  lemma StringTextLength(s: seq<byte>)
    ensures |StringText(s)| == |Escaped(s)| + 2
  {
  }

  lemma StringTextWithNul(before: seq<byte>, input: seq<byte>)
    ensures before + [QUOTE] + Escaped(input) + [QUOTE, 0] == before + StringText(input) + [0]
    ensures |Escaped(input)| == |input| ==> before + ([QUOTE] + input + [QUOTE, 0]) == before + StringText(input) + [0]
  {
    hide Escape, Escaped;
    if |Escaped(input)| == |input| {
      EscapedPlain(input);
    }
    assert StringText(input) + [0] == [QUOTE] + Escaped(input) + [QUOTE, 0];
  }

  /** The switch that writes one escape. */
  function EscapeSequence(c: byte): (t: seq<byte>)
    requires c < 32 || c == QUOTE || c == BACKSLASH
    ensures t == Escape(c)
  {
    [BACKSLASH] +
    match c
    case 92 => [92]
    case 34 => [34]
    case 8 => [98]
    case 12 => [102]
    case 10 => [110]
    case 13 => [114]
    case 9 => [116]
    case _ => [117, ZERO, ZERO, HexDigit(c as int / 16), HexDigit(c as int % 16)]
  }

  method CountEscapes(input: seq<byte>) returns (n: nat)
    ensures |input| + n == |Escaped(input)|
  {
    n := 0;
    assert input[0..] == input;
    for i := 0 to |input|
      invariant i + n + |Escaped(input[i..])| == |Escaped(input)|
    {
      var c := input[i];
      assert input[i..][1..] == input[i + 1..];
      if c == QUOTE || c == BACKSLASH || c == 8 || c == 12 || c == 10 || c == 13 || c == 9 {
        n := n + 1;
      } else if c < 32 {
        n := n + 5;
      }
    }
  }

  lemma {:induction false} EscapedPlain(s: seq<byte>)
    requires |Escaped(s)| == |s|
    ensures Escaped(s) == s
  {
    if s != [] {
      assert |Escaped(s[1..])| >= |s[1..]|;
      EscapedPlain(s[1..]);
    }
  }

  lemma EmptyText()
    ensures StringText([]) == [QUOTE, QUOTE]
  {
  }

  // ---------------------------------------------------------------- the entry points

  /** `cJSON_PrintPreallocated`: it succeeds exactly when the text, its NUL and one spare byte fit. */
  method PrintPreallocated(v: Json, buffer: array<byte>, format: bool) returns (ok: bool)
    requires buffer.Length <= INT_MAX && Printable(v)
    modifies buffer
    ensures ok <==> buffer.Length >= |Text(v, format, 0)| + 2
    ensures ok ==> buffer[..|Text(v, format, 0)| + 1] == Text(v, format, 0) + [0]
  {
    var p := new PrintBuffer(buffer, true, format);
    ok := p.PrintValue(v);
  }

  /** `cJSON_PrintBuffered`: whatever the starting capacity, the same text; it fails only for a negative
      capacity or a text that no buffer of at most INT_MAX bytes can hold. */
  method PrintBuffered(v: Json, prebuffer: int, format: bool) returns (r: Option<array<byte>>)
    requires prebuffer <= INT_MAX && Printable(v)
    ensures r.Some? <==> prebuffer >= 0 && |Text(v, format, 0)| + 2 <= 0x7FFF_FFFF
    ensures r.Some? ==> fresh(r.value) && |Text(v, format, 0)| < r.value.Length
    ensures r.Some? ==> r.value[..|Text(v, format, 0)| + 1] == Text(v, format, 0) + [0]
  {
    if prebuffer < 0 {
      return None;
    }
    var buffer := new byte[prebuffer];
    var p := new PrintBuffer(buffer, false, format);
    var ok := p.PrintValue(v);
    if !ok {
      return None;
    }
    return Some(p.buffer);
  }

  /** `print`: a buffer of exactly the text and its NUL. */
  method Print(v: Json, format: bool) returns (r: Option<array<byte>>)
    requires Printable(v)
    ensures r.Some? <==> |Text(v, format, 0)| + 2 <= 0x7FFF_FFFF
    ensures r.Some? ==> fresh(r.value) && r.value[..] == Text(v, format, 0) + [0]
  {
    var buffer := new byte[256];
    var p := new PrintBuffer(buffer, false, format);
    ghost var text := Text(v, format, 0);
    var ok := p.PrintValue(v);
    if !ok {
      return None;
    }
    hide Text, Printable;
    p.UpdateOffset([], text);
    var source := p.buffer;
    var printed := CopyOf(source, p.offset + 1);
    return Some(printed);
  }

  method CopyOf(source: array<byte>, n: nat) returns (copy: array<byte>)
    requires n <= source.Length
    ensures fresh(copy) && copy[..] == source[..n]
  {
    copy := new byte[n];
    for i := 0 to n
      invariant copy[..i] == source[..i]
    {
      copy[i] := source[i];
    }
    assert copy[..] == copy[..n];
  }
}
