/** `cJSON_Minify` of ser2mqtt/src/cJSON.c: whitespace and comments are dropped in place. Strings are
    copied by a scanner that only knows one escape, the quote, and so takes the second backslash of a
    string that ends in a backslash for the start of one. */
module JsonMinify {
  import opened Bytes
  import opened JsonText

  const SLASH: byte := 47
  const STAR: byte := 42
  const RETURN: byte := 13

  predicate IsBlank(b: byte) {
    b == SPACE || b == TAB || b == RETURN || b == NEWLINE
  }

  // ---------------------------------------------------------------- what is kept

  /** What is left of the text `s`, read outside strings and comments. */
  function Minified(s: seq<byte>): (m: seq<byte>)
    ensures |m| <= |s|
    decreases |s|
  {
    if s == [] then []
    else if IsBlank(s[0]) then Minified(s[1..])
    else if s[0] == SLASH then
      if |s| > 1 && s[1] == SLASH then AfterLine(s[2..])
      else if |s| > 1 && s[1] == STAR then AfterBlock(s[2..])
      else Minified(s[1..])
    else if s[0] == QUOTE then [QUOTE] + Quoted(s[1..])
    else [s[0]] + Minified(s[1..])
  }

  /** What is left when `s` is read inside a string. */
  function Quoted(s: seq<byte>): (m: seq<byte>)
    ensures |m| <= |s|
    ensures s != [] ==> m != [] && m[0] == s[0]
    decreases |s|
  {
    if s == [] then []
    else if s[0] == QUOTE then [QUOTE] + Minified(s[1..])
    else if s[0] == BACKSLASH && |s| > 1 && s[1] == QUOTE then [BACKSLASH, QUOTE] + Quoted(s[2..])
    else [s[0]] + Quoted(s[1..])
  }

  function AfterLine(s: seq<byte>): (m: seq<byte>)
    ensures |m| <= |s|
    decreases |s|
  {
    if s == [] then []
    else if s[0] == NEWLINE then Minified(s[1..])
    else AfterLine(s[1..])
  }

  function AfterBlock(s: seq<byte>): (m: seq<byte>)
    ensures |m| <= |s|
    decreases |s|
  {
    if s == [] then []
    else if s[0] == STAR && |s| > 1 && s[1] == SLASH then Minified(s[2..])
    else AfterBlock(s[1..])
  }

  // ---------------------------------------------------------------- the code

  /** `json` holds the C string `text`, of which the part from `from` on has not been touched. */
  ghost predicate Unread(json: array<byte>, text: seq<byte>, from: nat)
    reads json
  {
    from <= |text| < json.Length && json[from..|text| + 1] == text[from..] + [0]
  }

  /** The first byte not yet read, and the one after it, as the code sees them. */
  lemma UnreadBytes(json: array<byte>, text: seq<byte>, from: nat)
    requires Unread(json, text, from) && NulFree(text)
    ensures from <= |text| < json.Length
    ensures json[from] == 0 <==> from == |text|
    ensures from < |text| ==> json[from] == text[from]
    ensures from < |text| ==> Unread(json, text, from + 1)
    ensures from < |text| ==> json[from + 1] == if from + 1 < |text| then text[from + 1] else 0
  {
    var rest := json[from..|text| + 1];
    assert rest[0] == json[from];
    if from < |text| {
      assert rest[1..] == json[from + 1..|text| + 1];
      assert rest[1] == json[from + 1];
      assert (text[from..] + [0])[1..] == text[from + 1..] + [0];
    }
  }

  /** `skip_oneline_comment`, after its two slashes. */
  method SkipOnelineComment(json: array<byte>, from: nat, ghost text: seq<byte>) returns (to: nat)
    requires Unread(json, text, from) && NulFree(text)
    ensures from <= to && Unread(json, text, to)
    ensures Minified(text[to..]) == AfterLine(text[from..])
  {
    to := from;
    UnreadBytes(json, text, to);
    while json[to] != 0
      invariant from <= to && Unread(json, text, to)
      invariant AfterLine(text[to..]) == AfterLine(text[from..])
      decreases |text| - to
    {
      UnreadBytes(json, text, to);
      assert text[to..][1..] == text[to + 1..];
      if json[to] == NEWLINE {
        return to + 1;
      }
      to := to + 1;
    }
    UnreadBytes(json, text, to);
  }

  /** `skip_multiline_comment`, after its slash and star. */
  method SkipMultilineComment(json: array<byte>, from: nat, ghost text: seq<byte>) returns (to: nat)
    requires Unread(json, text, from) && NulFree(text)
    ensures from <= to && Unread(json, text, to)
    ensures Minified(text[to..]) == AfterBlock(text[from..])
  {
    to := from;
    UnreadBytes(json, text, to);
    while json[to] != 0
      invariant from <= to && Unread(json, text, to)
      invariant AfterBlock(text[to..]) == AfterBlock(text[from..])
      decreases |text| - to
    {
      UnreadBytes(json, text, to);
      assert text[to..][1..] == text[to + 1..];
      if json[to] == STAR && json[to + 1] == SLASH {
        UnreadBytes(json, text, to + 1);
        assert text[to..][2..] == text[to + 2..];
        return to + 2;
      }
      to := to + 1;
    }
    UnreadBytes(json, text, to);
  }

  /** One byte is copied down; nothing that is still to be read is touched. */
  method CopyDown(json: array<byte>, from: nat, into: nat, ghost text: seq<byte>)
    requires into <= from < |text| && Unread(json, text, from) && NulFree(text)
    modifies json
    ensures Unread(json, text, from + 1)
    ensures json[..into + 1] == old(json[..into]) + [text[from]]
    ensures json[|text| + 1..] == old(json[|text| + 1..])
  {
    UnreadBytes(json, text, from);
    ghost var rest := json[from + 1..|text| + 1];
    json[into] := json[from];
    assert json[from + 1..|text| + 1] == rest;
  }

  lemma QuotedStep(done: seq<byte>, text: seq<byte>, to: nat)
    requires to < |text|
    ensures var b, escape := text[to], text[to] == BACKSLASH && to + 1 < |text| && text[to + 1] == QUOTE;
      done + Quoted(text[to..]) ==
        if b == QUOTE then done + [QUOTE] + Minified(text[to + 1..])
        else if escape then done + [BACKSLASH] + [QUOTE] + Quoted(text[to + 2..])
        else done + [b] + Quoted(text[to + 1..])
  {
    QuotedCases(text, to);
    hide Minified, Quoted;
    if text[to] == QUOTE {
      Regroup(done, [QUOTE], Minified(text[to + 1..]));
    } else if text[to] == BACKSLASH && to + 1 < |text| && text[to + 1] == QUOTE {
      Regroup(done, [BACKSLASH, QUOTE], Quoted(text[to + 2..]));
      assert done + [BACKSLASH, QUOTE] == done + [BACKSLASH] + [QUOTE];
    } else {
      Regroup(done, [text[to]], Quoted(text[to + 1..]));
    }
  }

  lemma QuotedCases(text: seq<byte>, to: nat)
    requires to < |text|
    ensures var b, escape := text[to], text[to] == BACKSLASH && to + 1 < |text| && text[to + 1] == QUOTE;
      Quoted(text[to..]) ==
        if b == QUOTE then [QUOTE] + Minified(text[to + 1..])
        else if escape then [BACKSLASH, QUOTE] + Quoted(text[to + 2..])
        else [b] + Quoted(text[to + 1..])
  {
    hide Minified;
    var rest := text[to..];
    assert rest[1..] == text[to + 1..] && rest[0] == text[to];
    if to + 1 < |text| {
      assert rest[2..] == text[to + 2..];
    }
  }

  lemma OpeningQuote(done: seq<byte>, text: seq<byte>, from: nat)
    requires from < |text| && text[from] == QUOTE
    ensures done + Minified(text[from..]) == done + [QUOTE] + Quoted(text[from + 1..])
  {
    assert text[from..][1..] == text[from + 1..];
    Regroup(done, [QUOTE], Quoted(text[from + 1..]));
  }

  /** One turn of the loop of `minify_string`. */
  method CopyQuoted(json: array<byte>, from: nat, into: nat, ghost text: seq<byte>)
    returns (to: nat, out: nat, closed: bool)
    requires into <= from < |text| && Unread(json, text, from) && NulFree(text)
    modifies json
    ensures into < out <= to && from < to && Unread(json, text, to)
    ensures json[..out] + (if closed then Minified(text[to..]) else Quoted(text[to..])) ==
            old(json[..into]) + Quoted(text[from..])
    ensures json[|text| + 1..] == old(json[|text| + 1..])
  {
    hide Minified, Quoted, Unread, NulFree;
    UnreadBytes(json, text, from);
    QuotedStep(json[..into], text, from);
    var quote := json[from] == QUOTE;
    var escape := json[from] == BACKSLASH && json[from + 1] == QUOTE;
    CopyDown(json, from, into, text);
    to, out, closed := from + 1, into + 1, quote;
    if escape {
      CopyDown(json, to, out, text);
      to, out := to + 1, out + 1;
    }
  }

  /** `minify_string`: the string is copied down, its quotes included. */
  method MinifyString(json: array<byte>, from: nat, into: nat, ghost text: seq<byte>) returns (to: nat, out: nat)
    requires into <= from < |text| && Unread(json, text, from) && NulFree(text) && text[from] == QUOTE
    modifies json
    ensures into < out <= to && from < to && Unread(json, text, to)
    ensures json[..out] + Minified(text[to..]) == old(json[..into]) + Minified(text[from..])
    ensures json[|text| + 1..] == old(json[|text| + 1..])
  {
    OpeningQuote(json[..into], text, from);
    hide Minified, Quoted, NulFree;
    CopyDown(json, from, into, text);
    to, out := from + 1, into + 1;
    UnreadBytes(json, text, to);
    while json[to] != 0
      invariant into < out <= to && from < to <= |text| && Unread(json, text, to)
      invariant json[to] == 0 <==> to == |text|
      invariant json[..out] + Quoted(text[to..]) == old(json[..into]) + Minified(text[from..])
      invariant json[|text| + 1..] == old(json[|text| + 1..])
      decreases |text| - to
    {
      var closed;
      to, out, closed := CopyQuoted(json, to, out, text);
      if closed {
        return;
      }
      UnreadBytes(json, text, to);
    }
    EmptyRest(text);
  }

  lemma EmptyRest(text: seq<byte>)
    ensures Minified(text[|text|..]) == Quoted(text[|text|..]) == []
  {
  }

  lemma MinifiedStep(done: seq<byte>, text: seq<byte>, from: nat)
    requires from < |text| && text[from] != SLASH
    ensures var b := text[from];
      done + Minified(text[from..]) ==
        if IsBlank(b) then done + Minified(text[from + 1..])
        else if b == QUOTE then done + Minified(text[from..])
        else done + [b] + Minified(text[from + 1..])
  {
    var rest := text[from..];
    assert rest[1..] == text[from + 1..] && rest[0] == text[from];
    if !IsBlank(rest[0]) && rest[0] != QUOTE {
      assert Minified(rest) == [rest[0]] + Minified(text[from + 1..]);
      hide Minified;
      Regroup(done, [rest[0]], Minified(text[from + 1..]));
    }
  }

  lemma SlashCases(text: seq<byte>, from: nat)
    requires from < |text| && text[from] == SLASH
    ensures var next := if from + 1 < |text| then text[from + 1] else 0;
      Minified(text[from..]) ==
        if next == SLASH then AfterLine(text[from + 2..])
        else if next == STAR then AfterBlock(text[from + 2..])
        else Minified(text[from + 1..])
  {
    hide AfterLine, AfterBlock, Quoted;
    var rest := text[from..];
    assert rest[1..] == text[from + 1..] && rest[0] == text[from];
    if from + 1 < |text| {
      assert rest[2..] == text[from + 2..];
    }
  }

  /** A comment, or a slash that begins none. */
  method SkipSlash(json: array<byte>, from: nat, ghost text: seq<byte>) returns (to: nat)
    requires from < |text| && Unread(json, text, from) && NulFree(text) && text[from] == SLASH
    ensures from < to && Unread(json, text, to)
    ensures Minified(text[to..]) == Minified(text[from..])
  {
    hide Minified, AfterLine, AfterBlock, Unread;
    UnreadBytes(json, text, from);
    SlashCases(text, from);
    if json[from + 1] == SLASH {
      UnreadBytes(json, text, from + 1);
      to := SkipOnelineComment(json, from + 2, text);
    } else if json[from + 1] == STAR {
      UnreadBytes(json, text, from + 1);
      to := SkipMultilineComment(json, from + 2, text);
    } else {
      to := from + 1;
    }
  }

  /** `cJSON_Minify`: afterwards the buffer holds what is left of the text, ended by a NUL, and nothing
      behind the old NUL has changed. The write position never passes the read position. */
  method Minify(json: array<byte>, ghost text: seq<byte>)
    requires NulFree(text) && |text| < json.Length && json[..|text| + 1] == text + [0]
    modifies json
    ensures json[..|Minified(text)| + 1] == Minified(text) + [0]
    ensures json[|text| + 1..] == old(json[|text| + 1..])
  {
    hide Minified, AfterLine, AfterBlock, Unread;
    var from, into := 0, 0;
    AllUnread(json, text);
    UnreadBytes(json, text, 0);
    while json[from] != 0
      invariant into <= from <= |text| && Unread(json, text, from)
      invariant |text| < json.Length && (json[from] == 0 <==> from == |text|)
      invariant json[..into] + Minified(text[from..]) == Minified(text)
      invariant json[|text| + 1..] == old(json[|text| + 1..])
      decreases |text| - from
    {
      UnreadBytes(json, text, from);
      var b := json[from];
      if b == SLASH {
        from := SkipSlash(json, from, text);
      } else {
        MinifiedStep(json[..into], text, from);
        if b == SPACE || b == TAB || b == RETURN || b == NEWLINE {
          from := from + 1;
        } else if b == QUOTE {
          from, into := MinifyString(json, from, into, text);
        } else {
          CopyDown(json, from, into, text);
          from, into := from + 1, into + 1;
        }
      }
      UnreadBytes(json, text, from);
    }
    EmptyRest(text);
    assert json[..into] == Minified(text);
    json[into] := 0;
    assert json[..into + 1] == json[..into] + [0];
  }

  lemma AllUnread(json: array<byte>, text: seq<byte>)
    requires |text| < json.Length && json[..|text| + 1] == text + [0]
    ensures Unread(json, text, 0) && json[..0] + Minified(text[0..]) == Minified(text)
  {
    assert text[0..] == text;
  }
}
