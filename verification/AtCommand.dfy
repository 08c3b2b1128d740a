/** How quectel_cm_5G/src/atchannel.c turns the lines it reads into the response of the pending command:
    intermediate lines are pushed on a linked list, which is reversed in place at the end. */
module AtCommand {
  import opened Bytes

  datatype CommandType = NoResult | Numeric | SingleLine | MultiLine

  const ERRORS: seq<string> :=
    ["ERROR", "+CMS ERROR:", "+CME ERROR:", "NO CARRIER", "NO ANSWER", "NO DIALTONE", "COMMAND NOT SUPPORT"]
  const SUCCESSES: seq<string> := ["OK", "+QIND: \"FOTA\",\"END\",0", "CONNECT"]

  // ---------------------------------------------------------------- one line

  predicate StartsWith(line: string, prefix: string) {
    prefix <= line
  }

  predicate StartsWithAny(line: string, prefixes: seq<string>) {
    exists i :: 0 <= i < |prefixes| && StartsWith(line, prefixes[i])
  }

  predicate IsDigit(line: string) {
    line != [] && '0' <= line[0] <= '9'
  }

  /** A line that the pending command may want, `first` if it has none yet. */
  predicate Wanted(kind: CommandType, prefix: string, first: bool, line: string) {
    match kind
    case NoResult => false
    case Numeric => first && IsDigit(line)
    case SingleLine => first && StartsWith(line, prefix)
    case MultiLine => StartsWith(line, prefix)
  }

  /** The command that is waiting: its type and prefix, and what it still has to send when it is asked. */
  datatype Command = Command(kind: CommandType, prefix: string, rawData: Option<string>, pdu: Option<string>)

  /** The modem asks for the raw data with CONNECT and for the PDU with the prompt of section 4.3 of
      TS 27.005. */
  predicate AsksForData(c: Command, line: string) {
    c.rawData.Some? && line == "CONNECT"
  }

  predicate AsksForPdu(c: Command, line: string) {
    c.pdu.Some? && line == "> "
  }

  const CTRL_Z: char := 26 as char

  /** The response so far, its lines in the order in which they are stored: last one first. */
  datatype Pending = Pending(success: bool, final: Option<string>, stored: seq<string>)

  /** Everything one line can change: the response, the command, the lines passed on as unsolicited, and
      what is written to the modem. */
  datatype Outcome = Outcome(pending: Pending, command: Command, unsolicited: seq<string>, written: seq<string>)

  /** `processLine` for a pending command. */
  function Process(p: Pending, c: Command, proxy: bool, line: string): Outcome {
    if AsksForData(c, line) then Outcome(p, c.(rawData := None), [], [c.rawData.value])
    else if StartsWithAny(line, SUCCESSES)
    then Outcome(p.(success := true, final := Some(line)), c, if proxy then [line] else [], [])
    else if StartsWithAny(line, ERRORS)
    then Outcome(p.(success := false, final := Some(line)), c, if proxy then [line] else [], [])
    else if AsksForPdu(c, line) then Outcome(p, c.(pdu := None), [], [c.pdu.value + [CTRL_Z]])
    else if Wanted(c.kind, c.prefix, p.stored == [], line) then Outcome(p.(stored := [line] + p.stored), c, [], [])
    else Outcome(p, c, [line], [])
  }

  function Reversed<T>(s: seq<T>): (r: seq<T>)
    ensures |r| == |s|
  {
    if s == [] then [] else Reversed(s[1..]) + [s[0]]
  }

  // ---------------------------------------------------------------- the code

  class AtLine {
    const line: string
    var next: AtLine?

    constructor (line: string, next: AtLine?)
      ensures this.line == line && this.next == next
    {
      this.line, this.next := line, next;
    }
  }

  ghost predicate Node(nodes: seq<AtLine>, i: nat)
    requires i < |nodes|
    reads nodes
  {
    nodes[i].next == if i + 1 < |nodes| then nodes[i + 1] else null
  }

  /** A singly linked list of these nodes. */
  ghost predicate IsList(head: AtLine?, nodes: seq<AtLine>)
    reads nodes
  {
    head == (if nodes == [] then null else nodes[0]) &&
    (forall i, j :: 0 <= i < j < |nodes| ==> nodes[i] != nodes[j]) &&
    (forall i :: 0 <= i < |nodes| ==> Node(nodes, i))
  }

  ghost function Texts(nodes: seq<AtLine>): (r: seq<string>)
    ensures |r| == |nodes|
  {
    seq(|nodes|, i requires 0 <= i < |nodes| => nodes[i].line)
  }

  class Response {
    var success: bool
    var finalResponse: Option<string>
    var intermediates: AtLine?
    ghost var nodes: seq<AtLine>

    constructor ()
      ensures Valid() && Current() == Pending(false, None, []) && nodes == []
    {
      success, finalResponse, intermediates, nodes := false, None, null, [];
    }

    ghost predicate Valid()
      reads this, nodes
    {
      IsList(intermediates, nodes)
    }

    ghost function Current(): Pending
      reads this
    {
      Pending(success, finalResponse, Texts(nodes))
    }

    method AddIntermediate(line: string)
      requires Valid()
      modifies `intermediates, `nodes
      ensures Valid() && Current() == old(Current()).(stored := [line] + old(Current()).stored)
      ensures fresh(nodes[0]) && nodes[1..] == old(nodes)
    {
      ghost var before := nodes;
      var node := new AtLine(line, intermediates);
      intermediates := node;
      nodes := [node] + before;
      forall i | 0 <= i < |nodes| ensures Node(nodes, i) {
        assert i > 0 ==> old(Node(before, i - 1));
      }
      assert Texts(nodes) == [line] + Texts(before);
    }

    /** `reverseIntermediates`. */
    method ReverseIntermediates()
      requires Valid()
      modifies `intermediates, `nodes, nodes
      ensures Valid() && nodes == Reversed(old(nodes))
      ensures Current() == old(Current()).(stored := Reversed(old(Current()).stored))
    {
      hide Reversed;
      ghost var all := nodes;
      ghost var k := 0;
      var cur := intermediates;
      intermediates := null;
      Turned(all, 0);
      while cur != null
        invariant k <= |all| && cur == (if k < |all| then all[k] else null)
        invariant forall i :: k <= i < |all| ==> Node(all, i)
        invariant IsList(intermediates, Reversed(all[..k]))
        invariant success == old(success) && finalResponse == old(finalResponse)
        decreases |all| - k
      {
        assert Node(all, k);
        label Before:
        Turned(all, k);
        var next := cur.next;
        Push(cur, intermediates, Reversed(all[..k]));
        intermediates := cur;
        forall i | k < i < |all| ensures Node(all, i) {
          assert old@Before(Node(all, i));
        }
        cur := next;
        k := k + 1;
      }
      assert all[..k] == all;
      nodes := Reversed(all);
      TextsReversed(all);
    }
  }

  /** The node goes in front of the list. */
  method Push(node: AtLine, head: AtLine?, ghost list: seq<AtLine>)
    requires IsList(head, list) && node !in list
    modifies node
    ensures IsList(node, [node] + list)
  {
    node.next := head;
    forall i | 0 <= i < |list| + 1 ensures Node([node] + list, i) {
      assert i > 0 ==> old(Node(list, i - 1));
    }
  }

  lemma Turned(all: seq<AtLine>, k: nat)
    requires k <= |all| && forall i, j :: 0 <= i < j < |all| ==> all[i] != all[j]
    ensures k == 0 ==> Reversed(all[..k]) == []
    ensures k < |all| ==> Reversed(all[..k + 1]) == [all[k]] + Reversed(all[..k])
    ensures forall i :: 0 <= i < k ==> Reversed(all[..k])[i] == all[k - 1 - i]
  {
    if k < |all| {
      assert all[..k + 1] == all[..k] + [all[k]];
      ReversedAppend(all[..k], all[k]);
    }
    forall i | 0 <= i < k ensures Reversed(all[..k])[i] == all[k - 1 - i] {
      ReversedAt(all[..k], i);
    }
  }

  lemma {:induction false} ReversedAppend<T>(s: seq<T>, x: T)
    ensures Reversed(s + [x]) == [x] + Reversed(s)
  {
    if s != [] {
      ReversedAppend(s[1..], x);
      assert (s + [x])[1..] == s[1..] + [x];
    }
  }

  lemma {:induction false} ReversedAt<T>(s: seq<T>, i: nat)
    requires i < |s|
    ensures Reversed(s)[i] == s[|s| - 1 - i]
  {
    if i < |s| - 1 {
      ReversedAt(s[1..], i);
    }
  }

  lemma TextsReversed(nodes: seq<AtLine>)
    ensures Texts(Reversed(nodes)) == Reversed(Texts(nodes))
  {
    forall i | 0 <= i < |nodes| ensures Texts(Reversed(nodes))[i] == Reversed(Texts(nodes))[i] {
      ReversedAt(nodes, i);
      ReversedAt(Texts(nodes), i);
    }
  }

  class Channel {
    var response: Response?
    var command: Command
    const proxy: bool
    /** What was passed to the handler of unsolicited lines, and what was written, in order. */
    var unsolicited: seq<string>
    var written: seq<string>

    constructor (proxy: bool)
      ensures response == null && this.proxy == proxy && unsolicited == [] && written == []
    {
      response, unsolicited, written := null, [], [];
      command := Command(NoResult, "", None, None);
      this.proxy := proxy;
    }

    /** `processLine`. */
    method ProcessLine(line: string)
      requires response != null ==> response.Valid()
      modifies this`unsolicited, this`written, this`command, response
      ensures response == null ==>
                unsolicited == old(unsolicited) + [line] && written == old(written) && command == old(command)
      ensures response != null ==> response.Valid()
      ensures response != null ==>
                var o := Process(old(response.Current()), old(command), proxy, line);
                response.Current() == o.pending && command == o.command &&
                unsolicited == old(unsolicited) + o.unsolicited && written == old(written) + o.written
    {
      hide StartsWithAny, IsList, Texts, Wanted;
      assert unsolicited + [] == unsolicited && written + [] == written;
      if response == null {
        unsolicited := unsolicited + [line];
      } else if command.rawData.Some? && line == "CONNECT" {
        written := written + [command.rawData.value];
        command := command.(rawData := None);
      } else if StartsWithAny(line, SUCCESSES) {
        if proxy {
          unsolicited := unsolicited + [line];
        }
        response.success := true;
        response.finalResponse := Some(line);
      } else if StartsWithAny(line, ERRORS) {
        if proxy {
          unsolicited := unsolicited + [line];
        }
        response.success := false;
        response.finalResponse := Some(line);
      } else if command.pdu.Some? && line == "> " {
        written := written + [command.pdu.value + [CTRL_Z]];
        command := command.(pdu := None);
      } else {
        Dispatch(line);
      }
    }

    /** The switch on the type of the command. */
    method Dispatch(line: string)
      requires response != null && response.Valid()
      modifies this`unsolicited, response
      ensures response.Valid()
      ensures var wanted := Wanted(command.kind, command.prefix, old(response.Current()).stored == [], line);
        var before := old(response.Current());
        response.Current() == (if wanted then before.(stored := [line] + before.stored) else before) &&
        unsolicited == old(unsolicited) + (if wanted then [] else [line])
    {
      assert unsolicited + [] == unsolicited;
      match command.kind
      case NoResult =>
        unsolicited := unsolicited + [line];
      case Numeric =>
        if response.intermediates == null && IsDigit(line) {
          response.AddIntermediate(line);
        } else {
          unsolicited := unsolicited + [line];
        }
      case SingleLine =>
        if response.intermediates == null && StartsWith(line, command.prefix) {
          response.AddIntermediate(line);
        } else {
          unsolicited := unsolicited + [line];
        }
      case MultiLine =>
        if StartsWith(line, command.prefix) {
          response.AddIntermediate(line);
        } else {
          unsolicited := unsolicited + [line];
        }
    }
  }

  // ---------------------------------------------------------------- the response of a command

  predicate IsFinal(line: string) {
    StartsWithAny(line, SUCCESSES) || StartsWithAny(line, ERRORS)
  }

  /** All lines of one command. */
  function ProcessAll(c: Command, proxy: bool, lines: seq<string>): Outcome
    decreases |lines|
  {
    if lines == [] then Outcome(Pending(false, None, []), c, [], [])
    else
      var o := ProcessAll(c, proxy, lines[..|lines| - 1]);
      var more := Process(o.pending, o.command, proxy, lines[|lines| - 1]);
      Outcome(more.pending, more.command, o.unsolicited + more.unsolicited, o.written + more.written)
  }

  /** The lines that are not requests for data; the first CONNECT and the first prompt may be. */
  function Replies(c: Command, lines: seq<string>): seq<string>
    decreases |lines|
  {
    if lines == [] then []
    else
      var earlier, last := Replies(c, lines[..|lines| - 1]), lines[|lines| - 1];
      var now := CommandAfter(c, lines[..|lines| - 1]);
      if AsksForData(now, last) || AsksForPdu(now, last) then earlier else earlier + [last]
  }

  function CommandAfter(c: Command, lines: seq<string>): Command
    decreases |lines|
  {
    if lines == [] then c
    else
      var now, last := CommandAfter(c, lines[..|lines| - 1]), lines[|lines| - 1];
      if AsksForData(now, last) then now.(rawData := None)
      else if AsksForPdu(now, last) then now.(pdu := None)
      else now
  }

  /** No line ends the command. */
  ghost predicate Unfinished(c: Command, lines: seq<string>) {
    forall i :: 0 <= i < |lines| ==> IsFinal(lines[i]) ==> AsksForData(CommandAfter(c, lines[..i]), lines[i])
  }

  /** What the command should get: all lines with its prefix, or the first one that fits. */
  function Expected(kind: CommandType, prefix: string, lines: seq<string>): seq<string>
    decreases |lines|
  {
    if lines == [] then []
    else
      var earlier, last := Expected(kind, prefix, lines[..|lines| - 1]), lines[|lines| - 1];
      if Wanted(kind, prefix, earlier == [], last) then earlier + [last] else earlier
  }

  /** All the others. */
  function Others(kind: CommandType, prefix: string, lines: seq<string>): seq<string>
    decreases |lines|
  {
    if lines == [] then []
    else
      var past, last := lines[..|lines| - 1], lines[|lines| - 1];
      if Wanted(kind, prefix, Expected(kind, prefix, past) == [], last) then Others(kind, prefix, past)
      else Others(kind, prefix, past) + [last]
  }

  /** While the command goes on: its lines are stored, the others reach the handler of unsolicited lines,
      both in the order in which they arrived; requests for data are answered and passed on to nobody. */
  lemma {:induction false} LinesArriveInOrder(c: Command, proxy: bool, lines: seq<string>)
    requires Unfinished(c, lines)
    ensures var o, replies := ProcessAll(c, proxy, lines), Replies(c, lines);
      Reversed(o.pending.stored) == Expected(c.kind, c.prefix, replies) &&
      o.unsolicited == Others(c.kind, c.prefix, replies) &&
      o.pending.final == None && o.command == CommandAfter(c, lines)
    ensures CommandAfter(c, lines).kind == c.kind && CommandAfter(c, lines).prefix == c.prefix
    decreases |lines|
  {
    hide StartsWithAny, Wanted, Reversed, Process, Expected, Others, AsksForData, AsksForPdu, IsFinal;
    if lines == [] {
      NoLines(c.kind, c.prefix);
    } else {
      var past, last := lines[..|lines| - 1], lines[|lines| - 1];
      forall i | 0 <= i < |past|
        ensures IsFinal(past[i]) ==> AsksForData(CommandAfter(c, past[..i]), past[i])
      {
        assert past[i] == lines[i] && past[..i] == lines[..i];
      }
      LinesArriveInOrder(c, proxy, past);
      var o := ProcessAll(c, proxy, past);
      OneMoreLine(o.pending, o.command, proxy, last);
      OneMoreReply(c.kind, c.prefix, Replies(c, past), last);
    }
  }

  lemma NoLines(kind: CommandType, prefix: string)
    ensures Reversed<string>([]) == [] == Expected(kind, prefix, []) == Others(kind, prefix, [])
  {
  }

  lemma ReversedPush<T>(s: seq<T>, x: T)
    ensures Reversed([x] + s) == Reversed(s) + [x]
  {
    assert ([x] + s)[1..] == s;
  }

  lemma OneMoreLine(p: Pending, c: Command, proxy: bool, line: string)
    requires IsFinal(line) ==> AsksForData(c, line)
    ensures var o, r := Process(p, c, proxy, line), Reversed(p.stored);
      o.pending.final == p.final &&
      o.command == (if AsksForData(c, line) then c.(rawData := None)
                    else if AsksForPdu(c, line) then c.(pdu := None)
                    else c) &&
      (if AsksForData(c, line) || AsksForPdu(c, line) then Reversed(o.pending.stored) == r && o.unsolicited == []
       else if Wanted(c.kind, c.prefix, r == [], line)
       then Reversed(o.pending.stored) == r + [line] && o.unsolicited == []
       else Reversed(o.pending.stored) == r && o.unsolicited == [line])
  {
    hide StartsWithAny, Wanted, Reversed;
    assert |Reversed(p.stored)| == |p.stored|;
    ReversedPush(p.stored, line);
  }

  lemma OneMoreReply(kind: CommandType, prefix: string, replies: seq<string>, line: string)
    ensures var e, o := Expected(kind, prefix, replies), Others(kind, prefix, replies);
      var wanted := Wanted(kind, prefix, e == [], line);
      Expected(kind, prefix, replies + [line]) == (if wanted then e + [line] else e) &&
      Others(kind, prefix, replies + [line]) == if wanted then o else o + [line]
  {
    hide Wanted;
    assert (replies + [line])[..|replies|] == replies;
  }

  /** Between them, the command and the handler get every reply, each once. */
  lemma {:induction false} NoLineIsLost(kind: CommandType, prefix: string, lines: seq<string>)
    ensures multiset(Expected(kind, prefix, lines)) + multiset(Others(kind, prefix, lines)) == multiset(lines)
    decreases |lines|
  {
    hide Wanted;
    if lines != [] {
      var past, last := lines[..|lines| - 1], lines[|lines| - 1];
      NoLineIsLost(kind, prefix, past);
      assert lines == past + [last];
    }
  }

  /** The response of a command: success as the final line says, and its own lines in order. A proxy
      passes the final line on as well. */
  lemma CommandResponse(c: Command, proxy: bool, lines: seq<string>, last: string)
    requires Unfinished(c, lines) && IsFinal(last) && !AsksForData(CommandAfter(c, lines), last)
    ensures var o := ProcessAll(c, proxy, lines + [last]);
      o.pending.final == Some(last) && (o.pending.success <==> StartsWithAny(last, SUCCESSES)) &&
      Reversed(o.pending.stored) == Expected(c.kind, c.prefix, Replies(c, lines)) &&
      o.unsolicited == Others(c.kind, c.prefix, Replies(c, lines)) + if proxy then [last] else []
  {
    hide StartsWithAny, Wanted, Reversed, Expected, Others, AsksForData, AsksForPdu;
    LinesArriveInOrder(c, proxy, lines);
    var all := lines + [last];
    assert all[..|all| - 1] == lines && all[|all| - 1] == last;
  }

  /** The lines that end a command, and which of them mean success. */
  lemma FinalLines(line: string)
    ensures StartsWithAny(line, SUCCESSES) <==>
            "OK" <= line || "CONNECT" <= line || "+QIND: \"FOTA\",\"END\",0" <= line
    ensures IsFinal(line) <==>
            "OK" <= line || "CONNECT" <= line || "+QIND: \"FOTA\",\"END\",0" <= line ||
            "ERROR" <= line || "+CMS ERROR:" <= line || "+CME ERROR:" <= line || "NO CARRIER" <= line ||
            "NO ANSWER" <= line || "NO DIALTONE" <= line || "COMMAND NOT SUPPORT" <= line
  {
    AnyOfThree(line, SUCCESSES);
    AnyOfSeven(line, ERRORS);
  }

  lemma AnyOfThree(line: string, p: seq<string>)
    requires |p| == 3
    ensures StartsWithAny(line, p) <==> p[0] <= line || p[1] <= line || p[2] <= line
  {
    assert p[0] <= line ==> StartsWith(line, p[0]);
    assert p[1] <= line ==> StartsWith(line, p[1]);
    assert p[2] <= line ==> StartsWith(line, p[2]);
  }

  lemma AnyOfSeven(line: string, p: seq<string>)
    requires |p| == 7
    ensures StartsWithAny(line, p) <==>
            p[0] <= line || p[1] <= line || p[2] <= line || p[3] <= line || p[4] <= line || p[5] <= line || p[6] <= line
  {
    assert p[0] <= line ==> StartsWith(line, p[0]);
    assert p[1] <= line ==> StartsWith(line, p[1]);
    assert p[2] <= line ==> StartsWith(line, p[2]);
    assert p[3] <= line ==> StartsWith(line, p[3]);
    assert p[4] <= line ==> StartsWith(line, p[4]);
    assert p[5] <= line ==> StartsWith(line, p[5]);
    assert p[6] <= line ==> StartsWith(line, p[6]);
  }

  /** The lines that each type of command takes for its own: a numeric one the first that begins with a
      digit, a single-line one the first with its prefix, a multi-line one all with it. */
  lemma WantedLines(kind: CommandType, prefix: string, first: bool, line: string)
    ensures Wanted(kind, prefix, first, line) <==>
            (kind == Numeric && first && line != [] && '0' <= line[0] <= '9') ||
            (kind == SingleLine && first && |prefix| <= |line| && line[..|prefix|] == prefix) ||
            (kind == MultiLine && |prefix| <= |line| && line[..|prefix|] == prefix)
  {
  }

  /** The raw data goes out once, on the first CONNECT, and the PDU once, on the first prompt and followed
      by Ctrl-Z; nothing else is written. */
  lemma {:induction false} DataIsSentOnce(c: Command, proxy: bool, lines: seq<string>)
    ensures var o := ProcessAll(c, proxy, lines); DataSent(c, lines, o.command, o.written)
    decreases |lines|
  {
    hide Process, DataSent;
    if lines == [] {
      NothingSent(c);
    } else {
      var past, last := lines[..|lines| - 1], lines[|lines| - 1];
      DataIsSentOnce(c, proxy, past);
      assert lines == past + [last];
      var o := ProcessAll(c, proxy, past);
      ProcessWrites(o.pending, o.command, proxy, last);
      MoreSent(c, past, last, o.command, o.written);
    }
  }

  /** After `lines`: what the command still has to send, and what was written. */
  ghost predicate DataSent(c: Command, lines: seq<string>, now: Command, written: seq<string>) {
    (now.rawData == if "CONNECT" in lines then None else c.rawData) &&
    (now.pdu == if "> " in lines then None else c.pdu) &&
    multiset(written) ==
    (if c.rawData.Some? && "CONNECT" in lines then multiset{c.rawData.value} else multiset{}) +
    (if c.pdu.Some? && "> " in lines then multiset{c.pdu.value + [26 as char]} else multiset{})
  }

  lemma NothingSent(c: Command)
    ensures DataSent(c, [], c, [])
  {
  }

  lemma MoreSent(c: Command, past: seq<string>, last: string, now: Command, written: seq<string>)
    requires DataSent(c, past, now, written)
    ensures AsksForData(now, last) ==>
              DataSent(c, past + [last], now.(rawData := None), written + [now.rawData.value])
    ensures AsksForPdu(now, last) ==>
              DataSent(c, past + [last], now.(pdu := None), written + [now.pdu.value + [26 as char]])
    ensures !AsksForData(now, last) && !AsksForPdu(now, last) ==> DataSent(c, past + [last], now, written + [])
  {
    assert "CONNECT" in past + [last] <==> "CONNECT" in past || last == "CONNECT";
    assert "> " in past + [last] <==> "> " in past || last == "> ";
    assert written + [] == written;
    assert "CONNECT"[0] != "> "[0];
  }

  lemma ProcessWrites(p: Pending, c: Command, proxy: bool, line: string)
    ensures var o := Process(p, c, proxy, line);
      (AsksForData(c, line) ==> o.command == c.(rawData := None) && o.written == [c.rawData.value]) &&
      (AsksForPdu(c, line) ==> o.command == c.(pdu := None) && o.written == [c.pdu.value + [26 as char]]) &&
      (!AsksForData(c, line) && !AsksForPdu(c, line) ==> o.command == c && o.written == [])
  {
    hide StartsWithAny, Wanted;
    PromptIsNotFinal();
  }

  lemma PromptIsNotFinal()
    ensures !StartsWithAny("> ", SUCCESSES) && !StartsWithAny("> ", ERRORS)
  {
    assert forall i :: 0 <= i < |SUCCESSES| ==> SUCCESSES[i][0] != '>';
    assert forall i :: 0 <= i < |ERRORS| ==> ERRORS[i][0] != '>';
    forall i | 0 <= i < |SUCCESSES| ensures !StartsWith("> ", SUCCESSES[i]) {
      FirstDiffers("> ", SUCCESSES[i]);
    }
    forall i | 0 <= i < |ERRORS| ensures !StartsWith("> ", ERRORS[i]) {
      FirstDiffers("> ", ERRORS[i]);
    }
  }

  lemma FirstDiffers(line: string, prefix: string)
    requires line != [] && prefix != [] && prefix[0] != line[0]
    ensures !StartsWith(line, prefix)
  {
  }

  /** What `Expected` means: at most one line unless the command is a multi-line one, and for that every
      line with the prefix. */
  lemma {:induction false} ExpectedMultiLine(prefix: string, lines: seq<string>, line: string)
    ensures multiset(Expected(MultiLine, prefix, lines))[line] ==
            if StartsWith(line, prefix) then multiset(lines)[line] else 0
    decreases |lines|
  {
    hide StartsWith;
    if lines != [] {
      ExpectedMultiLine(prefix, lines[..|lines| - 1], line);
      assert lines == lines[..|lines| - 1] + [lines[|lines| - 1]];
    }
  }

  lemma {:induction false} ExpectedFirst(kind: CommandType, prefix: string, lines: seq<string>, i: nat)
    requires kind == Numeric || kind == SingleLine
    requires i < |lines| && Wanted(kind, prefix, true, lines[i])
    requires forall j :: 0 <= j < i ==> !Wanted(kind, prefix, true, lines[j])
    ensures Expected(kind, prefix, lines) == [lines[i]]
    decreases |lines|
  {
    var past := lines[..|lines| - 1];
    if i < |past| {
      ExpectedFirst(kind, prefix, past, i);
    } else {
      NoneExpected(kind, prefix, past);
    }
  }

  lemma {:induction false} NoneExpected(kind: CommandType, prefix: string, lines: seq<string>)
    requires forall j :: 0 <= j < |lines| ==> !Wanted(kind, prefix, true, lines[j])
    ensures Expected(kind, prefix, lines) == []
    decreases |lines|
  {
    if lines != [] {
      NoneExpected(kind, prefix, lines[..|lines| - 1]);
    }
  }
}
