/** The text that cJSON prints for a tree (RFC 8259, sections 2 to 7), as a function of the tree, of
    the `format` flag and of the nesting depth at which the printing starts. */
module JsonText {
  import opened Bytes
  import opened JsonTree

  // "null", "false", "true"
  const NULL_TEXT: seq<byte> := [110, 117, 108, 108]
  const FALSE_TEXT: seq<byte> := [102, 97, 108, 115, 101]
  const TRUE_TEXT: seq<byte> := [116, 114, 117, 101]

  const QUOTE: byte := 34
  const BACKSLASH: byte := 92
  const COMMA: byte := 44
  const COLON: byte := 58
  const OPEN_BRACKET: byte := 91
  const CLOSE_BRACKET: byte := 93
  const OPEN_BRACE: byte := 123
  const CLOSE_BRACE: byte := 125
  const MINUS: byte := 45
  const ZERO: byte := 48
  const TAB: byte := 9
  const NEWLINE: byte := 10
  const SPACE: byte := 32

  // ---------------------------------------------------------------- numbers

  function Digits(n: nat): (t: seq<byte>)
    ensures |t| > 0 && forall i :: 0 <= i < |t| ==> IsDigit(t[i])
  {
    var last: byte := ZERO + ((n % 10) as byte);
    if n < 10 then [last] else Digits(n / 10) + [last]
  }

  predicate IsDigit(b: byte) {
    ZERO <= b <= ZERO + 9
  }

  /** `sprintf("%d")`. */
  function IntText(n: int): (t: seq<byte>)
    ensures |t| > 0 && NulFree(t)
  {
    if n < 0 then [MINUS] + Digits(-n) else Digits(n)
  }

  // ---------------------------------------------------------------- strings

  function HexDigit(n: nat): byte
    requires n < 16
  {
    if n < 10 then ZERO + (n as byte) else 97 + ((n - 10) as byte)
  }

  /** How one byte of a string is written. */
  function Escape(c: byte): (t: seq<byte>)
    ensures |t| > 0
    ensures c != 0 ==> NulFree(t)
  {
    if c == QUOTE || c == BACKSLASH then [BACKSLASH, c]
    else if c == 8 then [BACKSLASH, 98]
    else if c == 12 then [BACKSLASH, 102]
    else if c == 10 then [BACKSLASH, 110]
    else if c == 13 then [BACKSLASH, 114]
    else if c == 9 then [BACKSLASH, 116]
    else if c < 32 then [BACKSLASH, 117, ZERO, ZERO, HexDigit(c as int / 16), HexDigit(c as int % 16)]
    else [c]
  }

  function Escaped(s: seq<byte>): (t: seq<byte>)
    ensures NulFree(s) ==> NulFree(t)
    ensures |t| >= |s|
  {
    if s == [] then [] else Escape(s[0]) + Escaped(s[1..])
  }

  function StringText(s: seq<byte>): (t: seq<byte>)
    ensures |t| >= 2
    ensures NulFree(s) ==> NulFree(t)
  {
    [QUOTE] + Escaped(s) + [QUOTE]
  }

  // ---------------------------------------------------------------- trees

  function Tabs(n: nat): (t: seq<byte>)
    ensures |t| == n && NulFree(t)
    ensures forall i :: 0 <= i < n ==> t[i] == TAB
  {
    seq(n, _ => TAB)
  }

  function Separator(format: bool): seq<byte> {
    if format then [COMMA, SPACE] else [COMMA]
  }

  function Opening(format: bool): seq<byte> {
    if format then [OPEN_BRACE, NEWLINE] else [OPEN_BRACE]
  }

  function Indent(format: bool, depth: nat): (t: seq<byte>)
    ensures NulFree(t)
  {
    if format then Tabs(depth) else []
  }

  function AfterKey(format: bool): seq<byte> {
    if format then [COLON, TAB] else [COLON]
  }

  function AfterMember(format: bool, last: bool): seq<byte> {
    (if last then [] else [COMMA]) + (if format then [NEWLINE] else [])
  }

  /** What `print_value` writes for `v` when `depth` containers are open. */
  function Text(v: Json, format: bool, depth: nat): (t: seq<byte>)
    requires Printable(v)
    ensures |t| > 0 && NulFree(t)
    decreases v, 0
  {
    match v
    case Null => NULL_TEXT
    case False => FALSE_TEXT
    case True => TRUE_TEXT
    case Number(d) => IntText(d.Floor)
    case String(s) => StringText(s)
    case Array(items) => [OPEN_BRACKET] + ItemsText(items, format, depth + 1) + [CLOSE_BRACKET]
    case Object(members) =>
      Opening(format) + MembersText(members, format, depth + 1) + Indent(format, depth) + [CLOSE_BRACE]
  }

  function ItemsText(items: seq<Json>, format: bool, depth: nat): (t: seq<byte>)
    requires PrintableItems(items)
    ensures NulFree(t)
    decreases items
  {
    if items == [] then []
    else if |items| == 1 then Text(items[0], format, depth)
    else Text(items[0], format, depth) + Separator(format) + ItemsText(items[1..], format, depth)
  }

  function MemberText(m: Member, last: bool, format: bool, depth: nat): (t: seq<byte>)
    requires NulFree(m.key) && Printable(m.value)
    ensures NulFree(t)
    decreases m, 1
  {
    Indent(format, depth) + StringText(m.key) + AfterKey(format) + Text(m.value, format, depth) +
    AfterMember(format, last)
  }

  function MembersText(members: seq<Member>, format: bool, depth: nat): (t: seq<byte>)
    requires PrintableMembers(members)
    ensures NulFree(t)
    decreases members
  {
    if members == [] then []
    else MemberText(members[0], |members| == 1, format, depth) + MembersText(members[1..], format, depth)
  }
}
