/** The recursive parser of ser2mqtt/src/cJSON.c. The functions say what the parse of a text gives:
    the value and the offset after it, or the offset at which it stops. The class is the code: an
    offset and a depth counter, moved step by step. */
module JsonParse {
  import opened Bytes
  import opened JsonTree
  import opened JsonText
  import JsonString
  import JsonNumber

  datatype Result<+T> = Parsed(value: T, at: nat) | Failed(at: nat)

  // ---------------------------------------------------------------- what is parsed

  /** The first position from `p` on that does not hold a byte up to the space. */
  function NonBlank(s: seq<byte>, p: nat): (q: nat)
    requires p <= |s|
    ensures p <= q <= |s| && (q < |s| ==> s[q] > SPACE)
    decreases |s| - p
  {
    if p < |s| && s[p] <= SPACE then NonBlank(s, p + 1) else p
  }

  /** `buffer_skip_whitespace`: it steps back from the end of the buffer, but only if it was not there. */
  function Skip(s: seq<byte>, p: nat): (q: nat)
    requires p <= |s|
    ensures p <= q <= |s|
    ensures p < |s| ==> q < |s|
  {
    if p == |s| then p
    else if NonBlank(s, p) == |s| then |s| - 1
    else NonBlank(s, p)
  }

  /** The offset stands on `b`. */
  predicate Sees(s: seq<byte>, p: nat, b: byte) {
    p < |s| && s[p] == b
  }

  predicate Reads(s: seq<byte>, p: nat, t: seq<byte>) {
    p + |t| <= |s| && s[p..p + |t|] == t
  }

  function FromString(r: JsonString.StringResult): Result<Json> {
    match r
    case StringOk(value, at) => Parsed(String(value), at)
    case StringFail(at) => Failed(at)
  }

  function FromNumber(r: JsonNumber.NumberResult, off: nat): Result<Json> {
    match r
    case NumberOk(d, at) => Parsed(Number(d), at)
    case NumberFail => Failed(off)
  }

  /** `parse_value` at `off`, inside `depth` open containers. */
  function Value(s: seq<byte>, off: nat, depth: nat): (r: Result<Json>)
    requires off <= |s| && depth <= NESTING_LIMIT
    ensures r.at <= |s| && (r.Parsed? ==> off < r.at)
    decreases NESTING_LIMIT - depth, 1, 0
  {
    if Reads(s, off, NULL_TEXT) then Parsed(Null, off + 4)
    else if Reads(s, off, FALSE_TEXT) then Parsed(False, off + 5)
    else if Reads(s, off, TRUE_TEXT) then Parsed(True, off + 4)
    else if Sees(s, off, QUOTE) then FromString(JsonString.ParseString(s, off))
    else if off < |s| && (s[off] == MINUS || IsDigit(s[off])) then FromNumber(JsonNumber.ParseNumber(s, off), off)
    else if Sees(s, off, OPEN_BRACKET) then ArrayAt(s, off, depth)
    else if Sees(s, off, OPEN_BRACE) then ObjectAt(s, off, depth)
    else Failed(off)
  }

  /** `parse_array`. */
  function ArrayAt(s: seq<byte>, off: nat, depth: nat): (r: Result<Json>)
    requires off < |s| && depth <= NESTING_LIMIT
    ensures r.at <= |s| && (r.Parsed? ==> off < r.at)
    decreases NESTING_LIMIT - depth, 0, 0
  {
    if depth >= NESTING_LIMIT then Failed(off)
    else
      var p := Skip(s, off + 1);
      if Sees(s, p, CLOSE_BRACKET) then Parsed(Array([]), p + 1)
      else if p >= |s| then Failed(p - 1)
      else match Elements(s, p - 1, depth + 1)
        case Parsed(items, at) => Parsed(Array(items), at)
        case Failed(at) => Failed(at)
  }

  /** `parse_object`. */
  function ObjectAt(s: seq<byte>, off: nat, depth: nat): (r: Result<Json>)
    requires off < |s| && depth <= NESTING_LIMIT
    ensures r.at <= |s| && (r.Parsed? ==> off < r.at)
    decreases NESTING_LIMIT - depth, 0, 0
  {
    if depth >= NESTING_LIMIT then Failed(off)
    else
      var p := Skip(s, off + 1);
      if Sees(s, p, CLOSE_BRACE) then Parsed(Object([]), p + 1)
      else if p >= |s| then Failed(p - 1)
      else match Members(s, p - 1, depth + 1)
        case Parsed(members, at) => Parsed(Object(members), at)
        case Failed(at) => Failed(at)
  }

  /** The loop of `parse_array`, from the character in front of an element. */
  function Elements(s: seq<byte>, off: nat, depth: nat): (r: Result<seq<Json>>)
    requires off < |s| && depth <= NESTING_LIMIT
    ensures r.at <= |s| && (r.Parsed? ==> off < r.at)
    decreases NESTING_LIMIT - depth, 2, |s| - off
  {
    match Value(s, Skip(s, off + 1), depth)
    case Failed(at) => Failed(at)
    case Parsed(v, at) =>
      var e := Skip(s, at);
      if Sees(s, e, COMMA) then
        match Elements(s, e, depth)
        case Parsed(rest, end) => Parsed([v] + rest, end)
        case Failed(end) => Failed(end)
      else if Sees(s, e, CLOSE_BRACKET) then Parsed([v], e + 1)
      else Failed(e)
  }

  /** The key and the colon of a member: the key, and the offset of the colon. */
  function Key(s: seq<byte>, off: nat): (r: Result<seq<byte>>)
    requires off < |s|
    ensures r.at <= |s| && (r.Parsed? ==> off < r.at < |s|)
  {
    if off + 1 >= |s| then Failed(off)
    else match JsonString.ParseString(s, Skip(s, off + 1))
      case StringFail(at) => Failed(at)
      case StringOk(key, at) =>
        var c := Skip(s, at);
        if Sees(s, c, COLON) then Parsed(key, c) else Failed(c)
  }

  /** The loop of `parse_object`. */
  function Members(s: seq<byte>, off: nat, depth: nat): (r: Result<seq<Member>>)
    requires off < |s| && depth <= NESTING_LIMIT
    ensures r.at <= |s| && (r.Parsed? ==> off < r.at)
    decreases NESTING_LIMIT - depth, 2, |s| - off
  {
    match Key(s, off)
    case Failed(at) => Failed(at)
    case Parsed(key, c) =>
      match Value(s, Skip(s, c + 1), depth)
      case Failed(at) => Failed(at)
      case Parsed(v, at) =>
        var e := Skip(s, at);
        if Sees(s, e, COMMA) then
          match Members(s, e, depth)
          case Parsed(rest, end) => Parsed([Member(key, v)] + rest, end)
          case Failed(end) => Failed(end)
        else if Sees(s, e, CLOSE_BRACE) then Parsed([Member(key, v)], e + 1)
        else Failed(e)
  }

  /** `skip_utf8_bom`. */
  function SkipBom(s: seq<byte>): (p: nat)
    ensures p <= |s|
  {
    if |s| > 4 && s[..3] == [0xEF, 0xBB, 0xBF] then 3 else 0
  }

  /** `cJSON_ParseWithLengthOpts`: the tree and where the parse ended, or the position of the error. */
  function Parse(s: seq<byte>, requireNullTerminated: bool): (r: Result<Json>)
    ensures r.Parsed? ==> r.at <= |s|
    ensures r.Failed? ==> r.at < |s| || r.at == |s| == 0
  {
    if s == [] then Failed(0)
    else match Value(s, Skip(s, SkipBom(s)), 0)
      case Failed(at) => Failed(ErrorAt(s, at))
      case Parsed(v, at) =>
        if !requireNullTerminated then Parsed(v, at)
        else
          var e := Skip(s, at);
          if Sees(s, e, 0) then Parsed(v, e) else Failed(ErrorAt(s, e))
  }

  function ErrorAt(s: seq<byte>, at: nat): nat
    requires s != []
  {
    if at < |s| then at else |s| - 1
  }

  function PrependAll<T>(items: seq<T>, r: Result<seq<T>>): Result<seq<T>> {
    match r
    case Parsed(rest, at) => Parsed(items + rest, at)
    case Failed(at) => Failed(at)
  }

  lemma PrependNone<T>(r: Result<seq<T>>)
    ensures PrependAll([], r) == r
  {
    if r.Parsed? {
      assert [] + r.value == r.value;
    }
  }

  lemma PrependOne<T>(items: seq<T>, v: T, r: Result<seq<T>>)
    ensures PrependAll(items, PrependAll([v], r)) == PrependAll(items + [v], r)
    ensures PrependAll(items, Parsed([v], 0)).value == items + [v]
  {
    if r.Parsed? {
      assert items + ([v] + r.value) == items + [v] + r.value;
    }
  }

  // ---------------------------------------------------------------- the code

  class ParseBuffer {
    const content: seq<byte>
    var offset: nat
    var depth: nat

    constructor (content: seq<byte>)
      ensures this.content == content && offset == 0 && depth == 0
    {
      this.content := content;
      this.offset := 0;
      this.depth := 0;
    }

    ghost predicate Ready()
      reads this
    {
      offset <= |content| && depth <= NESTING_LIMIT
    }

    method SkipWhitespace()
      requires offset <= |content|
      modifies this`offset
      ensures offset == Skip(content, old(offset))
    {
      if offset >= |content| {
        return;
      }
      while offset < |content| && content[offset] <= SPACE
        invariant old(offset) <= offset <= |content|
        invariant NonBlank(content, offset) == NonBlank(content, old(offset))
      {
        offset := offset + 1;
      }
      if offset == |content| {
        offset := offset - 1;
      }
    }

    /** The two passes, and the C string that is left. */
    method ParseString() returns (r: Option<seq<byte>>)
      requires offset < |content|
      modifies this`offset
      ensures r.Some? ==> JsonString.ParseString(content, old(offset)) == JsonString.StringOk(r.value, offset)
      ensures r.None? ==> JsonString.ParseString(content, old(offset)) == JsonString.StringFail(offset)
    {
      var start := offset + 1;
      if content[offset] != QUOTE {
        offset := start;
        return None;
      }
      var end, skippedBytes := JsonString.SizeString(content, start);
      if end.None? {
        offset := start;
        return None;
      }
      var allocationLength := end.value - offset - skippedBytes;
      var output := new byte[allocationLength + 1];
      var ok, n, at := JsonString.DecodeString(content, start, end.value, output);
      if !ok {
        JsonString.DecodeAt(content, start, end.value);
        offset := at;
        return None;
      }
      output[n] := 0;
      offset := end.value + 1;
      return Some(CString(output[..n]));
    }

    method ParseValue() returns (r: Option<Json>)
      requires Ready()
      modifies this
      ensures Ready()
      ensures r.Some? ==> Value(content, old(offset), old(depth)) == Parsed(r.value, offset) && depth == old(depth)
      ensures r.None? ==> Value(content, old(offset), old(depth)) == Failed(offset)
      decreases NESTING_LIMIT - depth, 1
    {
      hide ArrayAt, ObjectAt, JsonString.ParseString;
      if Reads(content, offset, NULL_TEXT) {
        offset := offset + 4;
        return Some(Null);
      }
      if Reads(content, offset, FALSE_TEXT) {
        offset := offset + 5;
        return Some(False);
      }
      if Reads(content, offset, TRUE_TEXT) {
        offset := offset + 4;
        return Some(True);
      }
      if Sees(content, offset, QUOTE) {
        var s := ParseString();
        return if s.Some? then Some(String(s.value)) else None;
      }
      if offset < |content| && (content[offset] == MINUS || IsDigit(content[offset])) {
        var window := JsonNumber.CopyNumber(content, offset);
        var number := JsonNumber.Strtod(window);
        if number.None? {
          return None;
        }
        offset := offset + number.value.1;
        return Some(Number(number.value.0));
      }
      if Sees(content, offset, OPEN_BRACKET) {
        r := ParseArray();
        return;
      }
      if Sees(content, offset, OPEN_BRACE) {
        r := ParseObject();
        return;
      }
      return None;
    }

    method ParseArray() returns (r: Option<Json>)
      requires Ready() && Sees(content, offset, OPEN_BRACKET)
      modifies this
      ensures Ready()
      ensures r.Some? ==> ArrayAt(content, old(offset), old(depth)) == Parsed(r.value, offset) && depth == old(depth)
      ensures r.None? ==> ArrayAt(content, old(offset), old(depth)) == Failed(offset)
      decreases NESTING_LIMIT - depth, 0
    {
      hide Elements, Members, Skip;
      if depth >= NESTING_LIMIT {
        return None;
      }
      depth := depth + 1;
      offset := offset + 1;
      SkipWhitespace();
      if Sees(content, offset, CLOSE_BRACKET) {
        depth := depth - 1;
        offset := offset + 1;
        return Some(Array([]));
      }
      if offset >= |content| {
        offset := offset - 1;
        return None;
      }
      offset := offset - 1;
      var items := ParseElements();
      if items.None? {
        return None;
      }
      depth := depth - 1;
      offset := offset + 1;
      return Some(Array(items.value));
    }

    /** The loop of `parse_array`; it ends on the closing bracket. */
    method ParseElements() returns (r: Option<seq<Json>>)
      requires Ready() && offset < |content|
      modifies this
      ensures Ready()
      ensures r.Some? ==> Elements(content, old(offset), old(depth)) == Parsed(r.value, offset + 1)
      ensures r.Some? ==> depth == old(depth)
      ensures r.Some? ==> offset < |content|
      ensures r.None? ==> Elements(content, old(offset), old(depth)) == Failed(offset)
      decreases NESTING_LIMIT - depth, 2
    {
      hide Elements, Skip, Value, PrependAll;
      var items: seq<Json> := [];
      ghost var whole := Elements(content, offset, depth);
      PrependNone(whole);
      while true
        invariant Ready() && offset < |content| && depth == old(depth)
        invariant whole == PrependAll(items, Elements(content, offset, depth))
        decreases |content| - offset
      {
        ghost var from := offset;
        ElementsStep(content, from, depth, items);
        offset := offset + 1;
        SkipWhitespace();
        var v := ParseValue();
        if v.None? {
          return None;
        }
        SkipWhitespace();
        items := items + [v.value];
        if !Sees(content, offset, COMMA) {
          break;
        }
      }
      if !Sees(content, offset, CLOSE_BRACKET) {
        return None;
      }
      return Some(items);
    }

    method ParseObject() returns (r: Option<Json>)
      requires Ready() && Sees(content, offset, OPEN_BRACE)
      modifies this
      ensures Ready()
      ensures r.Some? ==> ObjectAt(content, old(offset), old(depth)) == Parsed(r.value, offset) && depth == old(depth)
      ensures r.None? ==> ObjectAt(content, old(offset), old(depth)) == Failed(offset)
      decreases NESTING_LIMIT - depth, 0
    {
      hide Elements, Members, Skip;
      if depth >= NESTING_LIMIT {
        return None;
      }
      depth := depth + 1;
      offset := offset + 1;
      SkipWhitespace();
      if Sees(content, offset, CLOSE_BRACE) {
        depth := depth - 1;
        offset := offset + 1;
        return Some(Object([]));
      }
      if offset >= |content| {
        offset := offset - 1;
        return None;
      }
      offset := offset - 1;
      var members := ParseMembers();
      if members.None? {
        return None;
      }
      depth := depth - 1;
      offset := offset + 1;
      return Some(Object(members.value));
    }

    method ParseKey() returns (r: Option<seq<byte>>)
      requires offset < |content|
      modifies this`offset
      ensures offset <= |content|
      ensures r.Some? ==> Key(content, old(offset)) == Parsed(r.value, offset)
      ensures r.None? ==> Key(content, old(offset)) == Failed(offset)
    {
      hide Skip, JsonString.ParseString;
      if offset + 1 >= |content| {
        return None;
      }
      offset := offset + 1;
      SkipWhitespace();
      var key := ParseString();
      if key.None? {
        return None;
      }
      SkipWhitespace();
      if !Sees(content, offset, COLON) {
        return None;
      }
      return key;
    }

    /** The loop of `parse_object`; it ends on the closing brace. */
    method ParseMembers() returns (r: Option<seq<Member>>)
      requires Ready() && offset < |content|
      modifies this
      ensures Ready()
      ensures r.Some? ==> Members(content, old(offset), old(depth)) == Parsed(r.value, offset + 1)
      ensures r.Some? ==> depth == old(depth)
      ensures r.Some? ==> offset < |content|
      ensures r.None? ==> Members(content, old(offset), old(depth)) == Failed(offset)
      decreases NESTING_LIMIT - depth, 2
    {
      hide Members, Skip, Value, PrependAll, Key;
      var members: seq<Member> := [];
      ghost var whole := Members(content, offset, depth);
      PrependNone(whole);
      while true
        invariant Ready() && offset < |content| && depth == old(depth)
        invariant whole == PrependAll(members, Members(content, offset, depth))
        decreases |content| - offset
      {
        ghost var from := offset;
        MembersStep(content, from, depth, members);
        var key := ParseKey();
        if key.None? {
          return None;
        }
        offset := offset + 1;
        SkipWhitespace();
        var v := ParseValue();
        if v.None? {
          return None;
        }
        SkipWhitespace();
        members := members + [Member(key.value, v.value)];
        if !Sees(content, offset, COMMA) {
          break;
        }
      }
      if !Sees(content, offset, CLOSE_BRACE) {
        return None;
      }
      return Some(members);
    }
  }

  lemma ElementsStep(s: seq<byte>, from: nat, depth: nat, items: seq<Json>)
    requires from < |s| && depth <= NESTING_LIMIT
    ensures var r := Value(s, Skip(s, from + 1), depth);
      var e := Skip(s, r.at);
      PrependAll(items, Elements(s, from, depth)) ==
        if r.Failed? then Failed(r.at)
        else if Sees(s, e, COMMA) then PrependAll(items + [r.value], Elements(s, e, depth))
        else if Sees(s, e, CLOSE_BRACKET) then Parsed(items + [r.value], e + 1)
        else Failed(e)
  {
    var r := Value(s, Skip(s, from + 1), depth);
    var e := Skip(s, r.at);
    hide Value;
    if r.Parsed? && Sees(s, e, COMMA) {
      PrependOne(items, r.value, Elements(s, e, depth));
    }
  }

  lemma MembersStep(s: seq<byte>, from: nat, depth: nat, members: seq<Member>)
    requires from < |s| && depth <= NESTING_LIMIT
    ensures Key(s, from).Failed? ==> PrependAll(members, Members(s, from, depth)) == Failed(Key(s, from).at)
    ensures Key(s, from).Parsed? ==>
      var r := Value(s, Skip(s, Key(s, from).at + 1), depth);
      var e := Skip(s, r.at);
      PrependAll(members, Members(s, from, depth)) ==
        if r.Failed? then Failed(r.at)
        else
          var m := Member(Key(s, from).value, r.value);
          if Sees(s, e, COMMA) then PrependAll(members + [m], Members(s, e, depth))
          else if Sees(s, e, CLOSE_BRACE) then Parsed(members + [m], e + 1)
          else Failed(e)
  {
    if Key(s, from).Parsed? {
      var r := Value(s, Skip(s, Key(s, from).at + 1), depth);
      var e := Skip(s, r.at);
      if r.Parsed? && Sees(s, e, COMMA) {
        PrependOne(members, Member(Key(s, from).value, r.value), Members(s, e, depth));
      }
    }
    hide Value, Key;
  }

  /** `cJSON_ParseWithLengthOpts`. */
  method ParseWithLengthOpts(value: seq<byte>, requireNullTerminated: bool) returns (r: Result<Json>)
    ensures r == Parse(value, requireNullTerminated)
  {
    if |value| == 0 {
      return Failed(0);
    }
    var buffer := new ParseBuffer(value);
    if |value| > 4 && value[..3] == [0xEF, 0xBB, 0xBF] {
      buffer.offset := buffer.offset + 3;
    }
    buffer.SkipWhitespace();
    var item := buffer.ParseValue();
    if item.None? {
      return Failed(ErrorAt(value, buffer.offset));
    }
    if requireNullTerminated {
      buffer.SkipWhitespace();
      if buffer.offset >= |value| || value[buffer.offset] != 0 {
        return Failed(ErrorAt(value, buffer.offset));
      }
    }
    return Parsed(item.value, buffer.offset);
  }
}
