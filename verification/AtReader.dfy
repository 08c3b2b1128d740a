/** The line reader of quectel_cm_5G/src/atchannel.c: lines out of a stream that arrives in pieces of
    any size, through one buffer that is compacted and cut up in place.

    Assumed of the stream: no NUL, no line that starts with '>' (`FindNextEOL` stops behind a prompt, but
    these lines hold none), and every line short enough, with the newlines in front of it, for the buffer.
    Assumed of `read`: it leaves room for the NUL that is written after what it delivered. */
module AtReader {
  import opened Bytes

  /** `sizeof(cm_recv_buf)`. */
  const MAX_AT_RESPONSE: nat := 4096

  predicate IsNewline(c: char) {
    c == '\r' || c == '\n'
  }

  // ---------------------------------------------------------------- the lines of a stream

  function SkipNewlines(s: string): (r: string)
    ensures |r| <= |s|
    ensures r != [] ==> !IsNewline(r[0])
  {
    if s != [] && IsNewline(s[0]) then SkipNewlines(s[1..]) else s
  }

  /** The characters in front of the first newline. */
  function LineLength(s: string): (n: nat)
    ensures n <= |s| && (n < |s| ==> IsNewline(s[n]))
    ensures forall i :: 0 <= i < n ==> !IsNewline(s[i])
  {
    if s == [] || IsNewline(s[0]) then 0 else 1 + LineLength(s[1..])
  }

  datatype Split = Split(line: string, rest: string)

  /** The next line that has its newline, and what follows that. */
  function NextLine(s: string): (r: Option<Split>)
    ensures r.Some? ==> |r.value.rest| < |s|
  {
    var t := SkipNewlines(s);
    var n := LineLength(t);
    if n == |t| then None else Some(Split(t[..n], t[n + 1..]))
  }

  function Lines(s: string): seq<string>
    decreases |s|
  {
    var next := NextLine(s);
    if next.None? then [] else [next.value.line] + Lines(next.value.rest)
  }

  // ---------------------------------------------------------------- what the stream must be like

  ghost predicate NoNul(s: string) {
    forall i :: 0 <= i < |s| ==> s[i] != '\0'
  }

  /** The newlines at the front and the text that follows them. */
  function Run(s: string): (n: nat)
    ensures n <= |s|
  {
    |s| - |SkipNewlines(s)| + LineLength(SkipNewlines(s))
  }

  ghost predicate Orderly(s: string)
    decreases |s|
  {
    Run(s) <= 4094 &&
    (SkipNewlines(s) != [] ==> SkipNewlines(s)[0] != '>') &&
    (NextLine(s).Some? ==> Orderly(NextLine(s).value.rest))
  }

  /** `k` newlines, then `n` characters without one. */
  ghost predicate Front(s: string, k: nat, e: nat) {
    k <= e <= |s| && (forall i :: 0 <= i < k ==> IsNewline(s[i])) && (forall i :: k <= i < e ==> !IsNewline(s[i]))
  }

  lemma SkipStep(s: string)
    ensures s == [] ==> SkipNewlines(s) == []
    ensures s != [] ==> SkipNewlines(s) == if IsNewline(s[0]) then SkipNewlines(s[1..]) else s
  {
  }

  lemma {:induction false} SkipIsSuffix(s: string)
    ensures SkipNewlines(s) == s[|s| - |SkipNewlines(s)|..]
    decreases |s|
  {
    hide SkipNewlines;
    SkipStep(s);
    if s != [] && IsNewline(s[0]) {
      SkipIsSuffix(s[1..]);
    }
  }

  lemma {:induction false} SkipFront(s: string, k: nat)
    requires k <= |s| && forall i :: 0 <= i < k ==> IsNewline(s[i])
    ensures SkipNewlines(s) == SkipNewlines(s[k..])
    decreases k
  {
    hide SkipNewlines;
    if k > 0 {
      SkipStep(s);
      forall i | 0 <= i < k - 1 ensures IsNewline(s[1..][i]) {
        assert s[1..][i] == s[i + 1];
      }
      SkipFront(s[1..], k - 1);
      assert s[1..][k - 1..] == s[k..];
    } else {
      assert s[0..] == s;
    }
  }

  lemma SameLines(s: string, t: string)
    requires SkipNewlines(s) == SkipNewlines(t) && |t| <= |s|
    ensures NextLine(t) == NextLine(s) && Run(t) <= Run(s)
  {
    hide SkipNewlines, LineLength;
  }

  lemma OrderlyMeans(s: string)
    ensures Orderly(s) <==>
            Run(s) <= MAX_AT_RESPONSE - 2 &&
            (SkipNewlines(s) != [] ==> SkipNewlines(s)[0] != '>') &&
            (NextLine(s).Some? ==> Orderly(NextLine(s).value.rest))
  {
    hide SkipNewlines, NextLine, Run;
  }

  lemma OrderlyFront(s: string, k: nat)
    requires Front(s, k, k) && Orderly(s)
    ensures Orderly(s[k..]) && NextLine(s[k..]) == NextLine(s)
  {
    hide SkipNewlines, LineLength, NextLine, Run, Orderly;
    SkipFront(s, k);
    SameLines(s, s[k..]);
    OrderlyMeans(s);
    OrderlyMeans(s[k..]);
  }

  lemma SkipsTo(s: string, k: nat)
    requires Front(s, k, k) && k < |s| && !IsNewline(s[k])
    ensures SkipNewlines(s) == s[k..]
  {
    SkipFront(s, k);
  }

  lemma LineAt(s: string, k: nat, e: nat)
    requires Front(s, k, e) && k < e < |s| && IsNewline(s[e])
    ensures NextLine(s) == Some(Split(s[k..e], s[e + 1..]))
  {
    hide SkipNewlines, LineLength;
    SkipsTo(s, k);
    var t, n := s[k..], e - k;
    assert t[n] == s[e];
    forall i | 0 <= i < n ensures !IsNewline(t[i]) {
      assert t[i] == s[k + i];
    }
    assert LineLength(t) == n;
    assert t[..n] == s[k..e] && t[n + 1..] == s[e + 1..];
  }

  lemma NoLineIn(s: string, k: nat)
    requires Front(s, k, |s|)
    ensures NextLine(s) == None
  {
    hide SkipNewlines, LineLength;
    SkipFront(s, k);
    var t := s[k..];
    forall i | 0 <= i < |t| ensures !IsNewline(t[i]) {
      assert t[i] == s[k + i];
    }
    SuffixSkip(t);
  }

  /** Data without NUL at a place where a NUL stands is no data. */
  lemma NulEnds(data: string, c: char)
    requires NoNul(data) && c == '\0' && (data != [] ==> data[0] == c)
    ensures data == []
  {
  }

  lemma SuffixSkip(t: string)
    requires forall i :: 0 <= i < |t| ==> !IsNewline(t[i])
    ensures SkipNewlines(t) == t
  {
  }

  lemma RunAtLeast(s: string, k: nat, e: nat)
    requires Front(s, k, e)
    ensures e <= Run(s)
  {
    hide SkipNewlines;
    SkipFront(s, k);
    if k < e {
      SkipsTo(s, k);
      var t, n := s[k..], LineLength(s[k..]);
      hide LineLength;
      assert forall i :: 0 <= i < e - k ==> t[i] == s[k + i];
    }
  }

  lemma PlainStart(s: string, k: nat)
    requires Front(s, k, k) && k < |s| && !IsNewline(s[k]) && Orderly(s)
    ensures s[k] != '>'
  {
    hide SkipNewlines;
    SkipsTo(s, k);
  }

  lemma OrderlyNext(s: string)
    requires Orderly(s) && NextLine(s).Some?
    ensures Orderly(NextLine(s).value.rest)
  {
  }

  lemma OrderlyRun(s: string)
    requires Orderly(s)
    ensures Run(s) <= MAX_AT_RESPONSE - 2
  {
  }

  // ---------------------------------------------------------------- the code

  class Reader {
    const buf: array<char>
    /** `s_ATBufferCur`, as an index. A NUL there means that the buffer is used up. */
    var cur: nat
    /** Where the NUL after the buffered data stands. */
    ghost var end: nat
    /** What the channel has yet to deliver. */
    var unread: string

    constructor (stream: string)
      requires NoNul(stream)
      ensures Valid() && Rest() == stream && fresh(buf)
    {
      buf := new char[MAX_AT_RESPONSE](_ => '\0');
      cur := 0;
      end := 0;
      unread := stream;
      new;
      assert buf[0..0] + unread == unread;
    }

    ghost predicate Valid()
      reads this, buf
    {
      buf.Length == MAX_AT_RESPONSE && cur <= end < buf.Length && buf[end] == '\0' &&
      NoNul(buf[cur..end]) && NoNul(unread)
    }

    /** Everything that was not yet returned. */
    ghost function Rest(): string
      requires Valid()
      reads this, buf
    {
      buf[cur..end] + unread
    }

    /** `read`: some number of bytes, at least one unless the stream is over. */
    method Read(p: nat) returns (count: nat)
      requires buf.Length == MAX_AT_RESPONSE && p + 2 <= buf.Length
      modifies buf, `unread
      ensures count <= |old(unread)| && p + count < buf.Length && (count == 0 <==> old(unread) == [])
      ensures unread == old(unread)[count..]
      ensures buf[..p + count] == old(buf[..p]) + old(unread)[..count]
      ensures count == 0 ==> buf[..] == old(buf[..])
    {
      if unread == [] {
        return 0;
      }
      var room := if |unread| <= buf.Length - p - 1 then |unread| else buf.Length - p - 1;
      assert 1 <= 1 <= room;
      count :| 1 <= count <= room;
      Store(p, unread[..count]);
      unread := unread[count..];
    }

    method Store(at: nat, data: string)
      requires at + |data| <= buf.Length
      modifies buf
      ensures buf[..at + |data|] == old(buf[..at]) + data
    {
      ghost var front := buf[..at];
      for i := 0 to |data|
        invariant buf[..at + i] == front + data[..i]
      {
        buf[at + i] := data[i];
        assert buf[..at + i + 1] == buf[..at + i] + [data[i]];
        assert data[..i + 1] == data[..i] + [data[i]];
        Regroup(front, data[..i], [data[i]]);
      }
      assert data[..|data|] == data;
    }

    method SkipLeading()
      requires Valid()
      modifies `cur
      ensures Valid() && old(cur) <= cur
      ensures forall i :: old(cur) <= i < cur ==> IsNewline(buf[i])
      ensures cur < end ==> !IsNewline(buf[cur])
    {
      while IsNewline(buf[cur])
        invariant old(cur) <= cur <= end
        invariant forall i :: old(cur) <= i < cur ==> IsNewline(buf[i])
        decreases end - cur
      {
        cur := cur + 1;
      }
      assert buf[cur..end] == buf[old(cur)..end][cur - old(cur)..];
    }

    /** `findNextEOL`: the next newline, or the place behind a lone prompt. */
    method FindNextEOL() returns (eol: Option<nat>)
      requires Valid()
      ensures AtPrompt() ==> eol == Some(cur + 2)
      ensures !AtPrompt() && eol.Some? ==>
                cur <= eol.value < end && IsNewline(buf[eol.value]) && NoNewline(cur, eol.value)
      ensures !AtPrompt() && eol.None? ==> NoNewline(cur, end)
    {
      if buf[cur] == '>' {
        PromptFits();
        if buf[cur + 1] == ' ' {
          if buf[cur + 2] == '\0' {
            return Some(cur + 2);
          }
        }
      }
      var c := cur;
      while buf[c] != '\0' && !IsNewline(buf[c])
        invariant cur <= c <= end && NoNewline(cur, c)
        decreases end - c
      {
        c := c + 1;
      }
      assert c < end ==> buf[cur..end][c - cur] == buf[c];
      return if buf[c] == '\0' then None else Some(c);
    }

    /** The buffered data is "> " and nothing else. */
    ghost predicate AtPrompt()
      reads this, buf
    {
      cur + 2 < buf.Length && buf[cur] == '>' && buf[cur + 1] == ' ' && buf[cur + 2] == '\0'
    }

    lemma PromptFits()
      requires Valid() && buf[cur] == '>'
      ensures cur + 1 <= end && (buf[cur + 1] == ' ' ==> cur + 2 <= end)
    {
    }

    ghost predicate NoNewline(from: nat, to: nat)
      requires from <= to <= buf.Length
      reads buf
    {
      forall i :: from <= i < to ==> !IsNewline(buf[i])
    }

    /** `strlen` of what is buffered. */
    method DataLength() returns (len: nat)
      requires Valid()
      ensures len == end - cur
    {
      ghost var data := buf[cur..end];
      len := 0;
      while buf[cur + len] != '\0'
        invariant cur + len <= end
        decreases end - cur - len
      {
        len := len + 1;
      }
      NulEnds(data[len..], buf[cur + len]);
    }

    /** `memmove` to the front of the buffer. */
    method MoveToFront(from: nat, n: nat)
      requires from + n <= buf.Length
      modifies buf
      ensures buf[..n] == old(buf[from..from + n])
    {
      ghost var moved := buf[from..from + n];
      for i := 0 to n
        invariant buf[..i] == moved[..i]
        invariant forall k :: from + i <= k < from + n ==> buf[k] == moved[k - from]
      {
        buf[i] := buf[from + i];
        assert buf[..i + 1] == buf[..i] + [buf[i]];
        assert moved[..i + 1] == moved[..i] + [moved[i]];
      }
      assert moved[..n] == moved;
    }

    /** The partial line is moved to the front of the buffer, with its NUL. */
    method MoveUp() returns (len: nat)
      requires Valid()
      modifies buf, `cur, `end
      ensures Valid() && cur == 0 && len == end == old(end - cur)
      ensures buf[..end] == old(buf[cur..end]) && unread == old(unread)
    {
      len := DataLength();
      ghost var data := buf[cur..end];
      assert buf[cur..cur + len + 1] == data + ['\0'];
      MoveToFront(cur, len + 1);
      cur := 0;
      end := len;
      assert buf[..len] == buf[..len + 1][..len];
      assert buf[..len + 1][len] == buf[len];
      assert buf[0..end] == data;
    }

    /** The data just read belongs to the buffer; a NUL goes after it. */
    method Extend(p: nat, count: nat)
      requires buf.Length == MAX_AT_RESPONSE && p + count < buf.Length && cur <= p && NoNul(unread)
      requires NoNul(buf[cur..p + count])
      modifies buf, `end
      ensures Valid() && end == p + count && buf[..end] == old(buf[..p + count])
    {
      buf[p + count] := '\0';
      end := p + count;
      assert buf[cur..end] == buf[..end][cur..];
      assert old(buf[cur..p + count]) == old(buf[..p + count])[cur..];
    }

    lemma UsedUp()
      requires Valid() && buf[cur] == '\0'
      ensures cur == end && Rest() == unread
    {
      NulEnds(buf[cur..end], buf[cur]);
      assert buf[cur..end] + unread == unread;
    }

    /** Newlines at the front of what was left do not matter. */
    lemma Skipped(r: string, from: nat)
      requires Valid() && from <= cur && r == buf[from..end] + unread && Orderly(r)
      requires forall i :: from <= i < cur ==> IsNewline(buf[i])
      requires cur < end ==> !IsNewline(buf[cur])
      ensures Orderly(Rest()) && NextLine(Rest()) == NextLine(r) && buf[cur] != '>'
    {
      hide Run, NextLine, Orderly;
      var k := cur - from;
      assert forall i :: 0 <= i < k ==> r[i] == buf[from + i];
      assert r[k..] == Rest();
      OrderlyFront(r, k);
      if cur < end {
        assert r[k] == buf[cur];
        PlainStart(r, k);
      }
    }

    lemma LineInBuffer(e: nat)
      requires Valid() && cur < e < end && IsNewline(buf[e]) && NoNewline(cur, e)
      ensures NextLine(Rest()) == Some(Split(buf[cur..e], buf[e + 1..end] + unread))
    {
      hide NextLine;
      var s, n := Rest(), e - cur;
      assert forall i :: 0 <= i <= n ==> s[i] == buf[cur + i];
      LineAt(s, 0, n);
      assert s[0..n] == buf[cur..e] && s[n + 1..] == buf[e + 1..end] + unread;
    }

    lemma Fresh(s: string, n: nat)
      requires n < buf.Length && s == buf[..n] + unread && NoNul(s) && cur <= n
      ensures NoNul(buf[cur..n]) && NoNul(unread)
    {
      forall i | cur <= i < n ensures buf[i] == s[i] {
      }
      forall i | 0 <= i < |unread| ensures unread[i] == s[n + i] {
      }
    }

    /** Where the text starts, after newlines in newly read data were skipped. */
    lemma Located(s: string, from: nat)
      requires Valid() && s == buf[..end] + unread && from <= cur && Orderly(s)
      requires forall i :: 0 <= i < from ==> IsNewline(s[i])
      requires forall i :: from <= i < cur ==> IsNewline(buf[i])
      requires cur < end ==> !IsNewline(buf[cur])
      ensures Front(s, cur, cur) && buf[cur] != '>'
    {
      hide Orderly;
      assert forall i :: 0 <= i < end ==> s[i] == buf[i];
      if cur < end {
        PlainStart(s, cur);
      }
    }

    /** `readline`. */
    method ReadLine() returns (line: Option<string>)
      requires Valid() && Orderly(Rest())
      modifies this, buf
      ensures Valid()
      ensures line.Some? <==> NextLine(old(Rest())).Some?
      ensures line.Some? ==> NextLine(old(Rest())).value == Split(line.value, Rest()) && Orderly(Rest())
      ensures line.None? ==> unread == []
    {
      hide Run, NextLine, Lines, Orderly, Valid, NoNewline;
      ghost var r := Rest();
      var p, eol := Prepare();
      if eol.None? {
        eol := ReadUntilEol(p);
        if eol.None? {
          return None;
        }
      } else {
        LineInBuffer(eol.value);
      }
      OrderlyNext(r);
      var l := TakeLine(eol.value);
      line := Some(l);
    }

    /** The first part of `readline`: look for a line in what is already there. */
    method Prepare() returns (p: nat, eol: Option<nat>)
      requires Valid() && Orderly(Rest())
      modifies buf, `cur, `end
      ensures Valid() && Orderly(Rest()) && NextLine(Rest()) == NextLine(old(Rest()))
      ensures eol.Some? ==> cur < eol.value < end && IsNewline(buf[eol.value]) && NoNewline(cur, eol.value)
      ensures eol.None? ==> cur == 0 && p == end && NoNewline(0, end)
    {
      hide Run, NextLine, Lines, Orderly;
      p := 0;
      eol := None;
      if buf[cur] == '\0' {
        UsedUp();
        cur := 0;
        buf[0] := '\0';
        end := 0;
        assert buf[0..0] + unread == unread;
      } else {
        ghost var r, from := Rest(), cur;
        SkipLeading();
        Skipped(r, from);
        eol := FindNextEOL();
        if eol.None? {
          ghost var data := buf[cur..end];
          assert forall i :: 0 <= i < |data| ==> !IsNewline(data[i]);
          p := MoveUp();
          assert buf[0..end] == buf[..end];
          assert forall i :: 0 <= i < end ==> buf[i] == data[i];
        }
      }
    }

    /** A NUL over the newline, and on to what follows. */
    method TakeLine(e: nat) returns (line: string)
      requires Valid() && cur <= e < end
      modifies buf, `cur
      ensures Valid() && line == old(buf[cur..e]) && Rest() == old(buf[e + 1..end] + unread)
    {
      line := buf[cur..e];
      ghost var rest := buf[e + 1..end];
      assert rest == buf[cur..end][e + 1 - cur..];
      buf[e] := '\0';
      cur := e + 1;
      assert buf[cur..end] == rest;
    }

    /** The loop of `readline`: read until there is a complete line, or nothing more to read. */
    method ReadUntilEol(start: nat) returns (eol: Option<nat>)
      requires Valid() && cur == 0 && end == start && NoNewline(0, end) && Orderly(Rest())
      modifies this, buf
      ensures Valid()
      ensures eol.Some? ==> cur <= eol.value < end
      ensures eol.Some? ==> NextLine(old(Rest())) == Some(Split(buf[cur..eol.value], buf[eol.value + 1..end] + unread))
      ensures eol.None? ==> NextLine(old(Rest())) == None && unread == []
    {
      hide Run, NextLine, Lines, Orderly, Front, Holds, NoNewline, NoNul;
      ghost var s := Rest();
      var p := start;
      OrderlyRun(s);
      Whole();
      while true
        invariant Valid() && p == end && Holds(s) && Front(s, cur, end)
        decreases |unread|
      {
        RunAtLeast(s, cur, end);
        if p == buf.Length {
          // the source starts over with an empty buffer
          assert false;
        }
        var count := Refill(p, s);
        if count == 0 {
          NoMore(s);
          return None;
        }
        eol := FindNextEOL();
        p := p + count;
        if eol.Some? {
          FoundLine(s, eol.value);
          return;
        }
        StillFront(s);
      }
    }

    /** The buffer from its start, and what is unread, make up the stream `s`. */
    ghost predicate Holds(s: string)
      reads this, buf
    {
      end < buf.Length && s == buf[..end] + unread && NoNul(s)
    }

    lemma Whole()
      requires Valid() && cur == 0 && NoNewline(0, end)
      ensures Holds(Rest()) && Front(Rest(), 0, end)
    {
      var s := Rest();
      assert buf[..end] == buf[0..end];
      assert forall i :: 0 <= i < end ==> s[i] == buf[i];
    }

    lemma NoMore(s: string)
      requires Valid() && Holds(s) && Front(s, cur, end) && s == s[..end]
      ensures NextLine(s) == None
    {
      hide NextLine;
      NoLineIn(s, cur);
    }

    lemma StillFront(s: string)
      requires Valid() && Holds(s) && Front(s, cur, cur) && NoNewline(cur, end)
      ensures Front(s, cur, end)
    {
      assert forall i :: 0 <= i < end ==> s[i] == buf[i];
    }

    lemma FoundLine(s: string, e: nat)
      requires Valid() && Holds(s) && Front(s, cur, cur) && cur < e < end && IsNewline(buf[e]) && NoNewline(cur, e)
      ensures NextLine(s) == Some(Split(buf[cur..e], buf[e + 1..end] + unread))
    {
      hide NextLine;
      assert forall i :: 0 <= i < end ==> s[i] == buf[i];
      LineAt(s, cur, e);
      assert s[cur..e] == buf[cur..e];
      assert s[e + 1..] == buf[e + 1..end] + unread;
    }

    /** One read, its NUL, and the newlines that it may have put at the front. */
    method Refill(p: nat, ghost s: string) returns (count: nat)
      requires Valid() && p == end && p + 2 <= buf.Length && Holds(s) && Front(s, cur, end) && Orderly(s)
      modifies buf, `unread, `cur, `end
      ensures Valid() && Holds(s) && end == p + count && |unread| == |old(unread)| - count
      ensures count == 0 ==> unread == [] && cur == old(cur) && s == s[..end]
      ensures count > 0 ==> Front(s, cur, cur) && buf[cur] != '>' && (cur < end ==> !IsNewline(buf[cur]))
    {
      hide Orderly;
      ghost var data, more := buf[..end], unread;
      count := Read(p);
      if count == 0 {
        assert forall i :: 0 <= i < buf.Length ==> buf[i] == buf[..][i];
        assert s == data;
        return;
      }
      assert more == more[..count] + more[count..];
      Regroup(data, more[..count], more[count..]);
      Fresh(s, p + count);
      Extend(p, count);
      ghost var from := cur;
      SkipLeading();
      Located(s, from);
    }
  }
  // ---------------------------------------------------------------- the whole stream

  /** `readerLoop`, as far as lines go: whatever pieces the reads deliver, the calls return exactly the
      lines of the stream, in order, and then nothing. */
  method ReadAll(reader: Reader) returns (lines: seq<string>)
    requires reader.Valid() && Orderly(reader.Rest())
    modifies reader, reader.buf
    ensures lines == Lines(old(reader.Rest()))
  {
    hide Orderly, NextLine, reader.Valid;
    ghost var all := Lines(reader.Rest());
    lines := [];
    while true
      invariant reader.Valid() && Orderly(reader.Rest())
      invariant lines + Lines(reader.Rest()) == all
      decreases |reader.Rest()|
    {
      ghost var rest := reader.Rest();
      var line := reader.ReadLine();
      if line.None? {
        assert lines + [] == lines;
        return;
      }
      lines := lines + [line.value];
    }
  }

  /** The lines are what lies between newlines, empty ones left out: these three equations decide every
      stream. */
  lemma NewlinesSeparate(c: char, s: string)
    requires c == '\r' || c == '\n'
    ensures Lines([c] + s) == Lines(s)
  {
    hide SkipNewlines, LineLength;
    SkipOne(c, s);
    NextDecides([c] + s, s);
  }

  lemma SkipOne(c: char, s: string)
    requires IsNewline(c)
    ensures SkipNewlines([c] + s) == SkipNewlines(s)
  {
    assert ([c] + s)[1..] == s;
  }

  lemma NextDecides(s: string, t: string)
    requires SkipNewlines(s) == SkipNewlines(t)
    ensures Lines(s) == Lines(t)
  {
    hide SkipNewlines, LineLength;
  }

  lemma TextIsALine(text: string, c: char, s: string)
    requires text != [] && (forall i :: 0 <= i < |text| ==> text[i] != '\r' && text[i] != '\n')
    requires c == '\r' || c == '\n'
    ensures Lines(text + [c] + s) == [text] + Lines(s)
  {
    var all, n := text + [c] + s, |text|;
    hide NextLine;
    LineAt(all, 0, n);
    assert all[0..n] == text && all[n + 1..] == s;
  }

  lemma UnfinishedTextIsNoLine(text: string)
    requires forall i :: 0 <= i < |text| ==> text[i] != '\r' && text[i] != '\n'
    ensures Lines(text) == []
  {
    hide NextLine;
    NoLineIn(text, 0);
  }

  /** A line without its newline stays with what arrives next: lines of a stream cut in two at any place
      are the lines of the first part, then those of its remainder joined with the second part. */
  lemma {:induction false} LinesOfPieces(a: string, b: string)
    ensures Lines(a + b) == Lines(a) + Lines(Remainder(a) + b)
    decreases |a|
  {
    hide NextLine;
    var next := NextLine(a);
    if next.Some? {
      NextOfLonger(a, b);
      LinesOfPieces(next.value.rest, b);
      var l, m, n := [next.value.line], Lines(next.value.rest), Lines(Remainder(next.value.rest) + b);
      assert l + (m + n) == l + m + n;
    } else {
      assert [] + Lines(a + b) == Lines(a + b);
    }
  }

  /** What is left when all complete lines are gone. */
  function Remainder(s: string): string
    decreases |s|
  {
    var next := NextLine(s);
    if next.None? then s else Remainder(next.value.rest)
  }

  lemma NextOfLonger(a: string, b: string)
    requires NextLine(a).Some?
    ensures NextLine(a + b) == Some(NextLine(a).value.(rest := NextLine(a).value.rest + b))
  {
    hide NextLine, SkipNewlines, LineLength, Front;
    var k := |a| - |SkipNewlines(a)|;
    var e := k + LineLength(SkipNewlines(a));
    Shape(a);
    LineAt(a, k, e);
    FrontOfLonger(a, b, k, e);
    LineAt(a + b, k, e);
    assert (a + b)[k..e] == a[k..e] && (a + b)[e + 1..] == a[e + 1..] + b;
  }

  lemma FrontOfLonger(a: string, b: string, k: nat, e: nat)
    requires Front(a, k, e) && e < |a|
    ensures Front(a + b, k, e) && (a + b)[e] == a[e]
  {
  }

  lemma Shape(s: string)
    requires NextLine(s).Some?
    ensures var k := |s| - |SkipNewlines(s)|;
      var e := k + LineLength(SkipNewlines(s));
      Front(s, k, e) && k < e < |s| && IsNewline(s[e])
  {
    hide SkipNewlines, LineLength;
    var t := SkipNewlines(s);
    var k, n := |s| - |t|, LineLength(t);
    assert n < |t|;
    SkipIsSuffix(s);
    SkippedAreNewlines(s);
    FirstCharacter(t);
    FrontOfText(s, k, t, n);
  }

  lemma FrontOfText(s: string, k: nat, t: string, n: nat)
    requires Front(s, k, k) && t == s[k..] && n < |t| && IsNewline(t[n])
    requires forall i :: 0 <= i < n ==> !IsNewline(t[i])
    ensures Front(s, k, k + n) && IsNewline(s[k + n])
  {
    assert s[k + n] == t[n];
    forall i | k <= i < k + n ensures !IsNewline(s[i]) {
      assert s[i] == t[i - k];
    }
  }

  lemma FirstCharacter(t: string)
    requires t != [] && !IsNewline(t[0])
    ensures LineLength(t) > 0
  {
  }

  lemma {:induction false} SkippedAreNewlines(s: string)
    ensures Front(s, |s| - |SkipNewlines(s)|, |s| - |SkipNewlines(s)|)
  {
    if s != [] && IsNewline(s[0]) {
      SkippedAreNewlines(s[1..]);
      var k := |s| - |SkipNewlines(s)|;
      assert forall i :: 1 <= i < k ==> s[i] == s[1..][i - 1];
    }
  }
}
