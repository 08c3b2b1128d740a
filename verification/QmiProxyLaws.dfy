/** The QMI proxy over every run: control requests are a FIFO with one request outstanding.

    The environment is assumed to be orderly: the modem answers each forwarded request once and sends no
    other control message, and no connection closes while it has a request in the queue. */
module QmiProxyLaws {
  import opened Bytes
  import opened QmiProxy

  // ---------------------------------------------------------------- what an observer sees

  function Run(events: seq<Event>): State {
    if events == [] then State([], []) else Step(Run(Past(events)), Last(events)).0
  }

  function Sent(events: seq<Event>): seq<Output> {
    if events == [] then [] else Sent(Past(events)) + Step(Run(Past(events)), Last(events)).1
  }

  function Past(events: seq<Event>): (r: seq<Event>)
    requires events != []
    ensures |r| == |events| - 1
  {
    events[..|events| - 1]
  }

  function Last(events: seq<Event>): Event
    requires events != []
  {
    events[|events| - 1]
  }

  /** The control requests the clients made, in order; synchronisation is refused them. */
  function Arrival(e: Event): seq<Queued> {
    if e.FromClient? && e.packet.Control? && !e.packet.sync then [Queued(e.fd, e.packet.body)] else []
  }

  function Arrivals(events: seq<Event>): seq<Queued> {
    if events == [] then [] else Arrivals(Past(events)) + Arrival(Last(events))
  }

  /** The answers the modem gave, in order. */
  function Answer(e: Event): seq<ModemPacket> {
    if e.FromModem? && e.answer.Response? then [e.answer] else []
  }

  function Answers(events: seq<Event>): seq<ModemPacket> {
    if events == [] then [] else Answers(Past(events)) + Answer(Last(events))
  }

  function Forwards(out: seq<Output>): seq<Queued> {
    if out == [] then []
    else (if out[0].Forward? then [out[0].request] else []) + Forwards(out[1..])
  }

  /** Who was handed which answer. */
  function Deliveries(out: seq<Output>): seq<(int, ModemPacket)> {
    if out == [] then []
    else (if out[0].Deliver? && out[0].answer.Response? then [(out[0].fd, out[0].answer)] else []) +
         Deliveries(out[1..])
  }

  function Min(a: nat, b: nat): nat {
    if a <= b then a else b
  }

  // ---------------------------------------------------------------- the environment

  ghost predicate Live(connections: seq<Connection>, fd: int) {
    exists k :: 0 <= k < |connections| && connections[k].fd == fd
  }

  ghost predicate Orderly(events: seq<Event>) {
    events == [] || (Orderly(Past(events)) && Allowed(Past(events), Last(events)))
  }

  ghost predicate Allowed(past: seq<Event>, e: Event) {
    match e
    case Accept(fd) => !Live(Run(past).connections, fd)
    case Hangup(fd) => forall q :: q in Run(past).queue ==> q.fd != fd
    case FromClient(fd, _) => Live(Run(past).connections, fd)
    case FromModem(p) => !p.Unsolicited? && (p.Response? ==> |Answers(past)| < |Forwards(Sent(past))|)
  }

  // ---------------------------------------------------------------- the discipline

  ghost predicate UniqueFds(connections: seq<Connection>) {
    forall j, k :: 0 <= j < k < |connections| ==> connections[j].fd != connections[k].fd
  }

  ghost predicate AllLive(s: State) {
    forall i :: 0 <= i < |s.queue| ==> Live(s.connections, s.queue[i].fd)
  }

  /** Each answer paired with the sender of the request at the same place. */
  ghost predicate AnsweredInTurn(handed: seq<(int, ModemPacket)>, arrivals: seq<Queued>, answers: seq<ModemPacket>) {
    |handed| == |answers| <= |arrivals| &&
    forall k :: 0 <= k < |handed| ==> handed[k] == (arrivals[k].fd, answers[k])
  }

  /** After `answers` of the `arrivals`, the queue is what is left; all answered requests and the first
      unanswered one have been forwarded, once each and in order; the k-th answer went to the sender of
      the k-th request. */
  ghost predicate Fifo(s: State, sent: seq<Output>, arrivals: seq<Queued>, answers: seq<ModemPacket>) {
    |answers| <= |arrivals| && s.queue == arrivals[|answers|..] &&
    Forwards(sent) == arrivals[..Min(|answers| + 1, |arrivals|)] &&
    AnsweredInTurn(Deliveries(sent), arrivals, answers) &&
    UniqueFds(s.connections) && AllLive(s)
  }

  // ---------------------------------------------------------------- outputs

  lemma ForwardsParts(out: seq<Output>)
    ensures out == [] ==> Forwards(out) == []
    ensures out != [] ==> Forwards(out) == Forwards(out[..1]) + Forwards(out[1..])
  {
    if out != [] {
      assert out[..1][1..] == [];
    }
  }

  lemma {:induction false} ForwardsAppend(a: seq<Output>, b: seq<Output>)
    ensures Forwards(a + b) == Forwards(a) + Forwards(b)
  {
    hide Forwards;
    ForwardsParts(a);
    ForwardsParts(a + b);
    if a == [] {
      assert a + b == b;
    } else {
      ForwardsAppend(a[1..], b);
      assert (a + b)[1..] == a[1..] + b && (a + b)[0] == a[0];
      var x, y, z := Forwards(a[..1]), Forwards(a[1..]), Forwards(b);
      assert (a + b)[..1] == a[..1];
      assert x + (y + z) == x + y + z;
    }
  }

  lemma DeliveriesParts(out: seq<Output>)
    ensures out == [] ==> Deliveries(out) == []
    ensures out != [] ==> Deliveries(out) == Deliveries(out[..1]) + Deliveries(out[1..])
  {
    if out != [] {
      assert out[..1][1..] == [];
    }
  }

  lemma {:induction false} DeliveriesAppend(a: seq<Output>, b: seq<Output>)
    ensures Deliveries(a + b) == Deliveries(a) + Deliveries(b)
  {
    hide Deliveries;
    DeliveriesParts(a);
    DeliveriesParts(a + b);
    if a == [] {
      assert a + b == b;
    } else {
      DeliveriesAppend(a[1..], b);
      assert (a + b)[1..] == a[1..] + b && (a + b)[0] == a[0];
      var x, y, z := Deliveries(a[..1]), Deliveries(a[1..]), Deliveries(b);
      assert (a + b)[..1] == a[..1];
      assert x + (y + z) == x + y + z;
    }
  }

  lemma OneOutput(out: Output)
    ensures Forwards([out]) == if out.Forward? then [out.request] else []
    ensures Deliveries([out]) == if out.Deliver? && out.answer.Response? then [(out.fd, out.answer)] else []
    ensures Forwards([]) == [] && Deliveries([]) == []
  {
    assert [out][1..] == [];
  }

  lemma LiveTail(connections: seq<Connection>, fd: int)
    requires connections != []
    ensures Live(connections, fd) <==> connections[0].fd == fd || Live(connections[1..], fd)
  {
    forall k | 0 <= k < |connections[1..]| ensures connections[1..][k] == connections[k + 1] {
    }
    forall k | 1 <= k < |connections| ensures connections[k] == connections[1..][k - 1] {
    }
  }

  lemma NotAgain(connections: seq<Connection>)
    requires connections != [] && UniqueFds(connections)
    ensures !Live(connections[1..], connections[0].fd)
  {
    forall k | 0 <= k < |connections[1..]| ensures connections[1..][k] == connections[k + 1] {
    }
  }

  lemma {:induction false} Dead(connections: seq<Connection>, fd: int, out: Output)
    requires !Live(connections, fd)
    ensures PerConnection(connections, fd, out) == []
  {
    if connections != [] {
      LiveTail(connections, fd);
      Dead(connections[1..], fd, out);
    }
  }

  lemma Where(connections: seq<Connection>, fd: int) returns (k: nat)
    requires Live(connections, fd)
    ensures k < |connections| && connections[k].fd == fd
  {
    k :| k < |connections| && connections[k].fd == fd;
  }

  /** With distinct descriptors, a walk over the connections acts on one. */
  lemma {:induction false} OneConnection(connections: seq<Connection>, fd: int, out: Output)
    requires UniqueFds(connections) && Live(connections, fd)
    ensures PerConnection(connections, fd, out) == [out]
  {
    hide PerConnection;
    var k := Where(connections, fd);
    PerConnectionStep(connections, 0, fd, out);
    assert connections[0..] == connections;
    if k == 0 {
      NotAgain(connections);
      Dead(connections[1..], fd, out);
    } else {
      assert connections[0].fd != connections[k].fd;
      assert connections[1..][k - 1].fd == fd;
      OneConnection(connections[1..], fd, out);
    }
  }

  lemma LiveAnswered(connections: seq<Connection>, fd: int, p: ModemPacket)
    requires p.Response?
    ensures UniqueFds(connections) ==> UniqueFds(Answered(connections, fd, p))
    ensures forall f :: Live(connections, f) ==> Live(Answered(connections, fd, p), f)
  {
    hide Answered;
    var r := Answered(connections, fd, p);
    forall f | Live(connections, f) ensures Live(r, f) {
      var k := Where(connections, f);
      assert r[k].fd == f;
    }
  }

  // ---------------------------------------------------------------- each event keeps the discipline

  lemma AcceptKeepsFifo(s: State, fd: int, sent: seq<Output>, arrivals: seq<Queued>, answers: seq<ModemPacket>)
    requires Fifo(s, sent, arrivals, answers) && !Live(s.connections, fd)
    ensures Fifo(s.(connections := s.connections + [Connection(fd, [])]), sent, arrivals, answers)
  {
    hide Forwards, AnsweredInTurn;
    forall i | 0 <= i < |s.queue| ensures Live(s.connections + [Connection(fd, [])], s.queue[i].fd) {
      var k := Where(s.connections, s.queue[i].fd);
      assert (s.connections + [Connection(fd, [])])[k].fd == s.queue[i].fd;
    }
    forall k | 0 <= k < |s.connections| ensures s.connections[k].fd != fd {
    }
  }

  lemma HangupKeepsFifo(s: State, fd: int, sent: seq<Output>, arrivals: seq<Queued>, answers: seq<ModemPacket>)
    requires Fifo(s, sent, arrivals, answers) && forall q :: q in s.queue ==> q.fd != fd
    ensures Fifo(Cleanup(s, fd), sent, arrivals, answers)
  {
    hide Forwards, AnsweredInTurn, WithoutFirst, FindConnection;
    var k := FindConnection(s.connections, fd);
    if k < |s.connections| {
      var rest := s.connections[..k] + s.connections[k + 1..];
      forall i | 0 <= i < |s.queue| ensures Live(rest, s.queue[i].fd) {
        assert s.queue[i] in s.queue;
        var j := Where(s.connections, s.queue[i].fd);
        assert rest[if j < k then j else j - 1].fd == s.queue[i].fd;
      }
      forall i, j | 0 <= i < j < |rest| ensures rest[i].fd != rest[j].fd {
        assert rest[i] == s.connections[if i < k then i else i + 1];
        assert rest[j] == s.connections[if j < k then j else j + 1];
      }
    }
  }

  lemma RequestKeepsFifo(s: State, q: Queued, sent: seq<Output>, arrivals: seq<Queued>, answers: seq<ModemPacket>)
    requires Fifo(s, sent, arrivals, answers) && Live(s.connections, q.fd)
    ensures var out := if s.queue == [] then [Forward(q)] else [];
      Fifo(s.(queue := s.queue + [q]), sent + out, arrivals + [q], answers)
  {
    hide Forwards, Deliveries;
    var out := if s.queue == [] then [Forward(q)] else [];
    ForwardsAppend(sent, out);
    DeliveriesAppend(sent, out);
    OneOutput(Forward(q));
    assert (arrivals + [q])[|answers|..] == arrivals[|answers|..] + [q];
    assert Deliveries(sent) + [] == Deliveries(sent);
  }

  /** The answer pops the head; the new head, if there is one, is forwarded. */
  lemma AnswerKeepsFifo(s: State, p: ModemPacket, sent: seq<Output>, arrivals: seq<Queued>, answers: seq<ModemPacket>)
    requires Fifo(s, sent, arrivals, answers) && p.Response? && |answers| < |arrivals|
    ensures var (t, out) := ReceiveFromModem(s, p);
      Fifo(t, sent + out, arrivals, answers + [p])
  {
    hide Forwards, Deliveries, PerConnection, Answered, Bookkeep, ForwardHead, UniqueFds, Live, AnsweredInTurn;
    var head := s.queue[0];
    var (t, out) := AnswerHead(s, p);
    HeadIsAnswered(s, p);
    var more := ForwardHead(t);
    HeadIsForwarded(t);
    Logged(sent, out, more);
    OneMoreAnswered(Deliveries(sent), arrivals, answers, p);
    assert t.queue == arrivals[|answers| + 1..];
    assert Deliveries(sent) + [(head.fd, p)] + [] == Deliveries(sent) + [(head.fd, p)];
  }

  lemma HeadIsAnswered(s: State, p: ModemPacket)
    requires p.Response? && s.queue != [] && UniqueFds(s.connections) && AllLive(s)
    ensures var (t, out) := AnswerHead(s, p);
      Forwards(out) == [] && Deliveries(out) == [(s.queue[0].fd, p)] && UniqueFds(t.connections) && AllLive(t)
  {
    hide Forwards, Deliveries, PerConnection, Answered, Bookkeep, UniqueFds, Live;
    var fd := s.queue[0].fd;
    OneConnection(s.connections, fd, Deliver(fd, p));
    LiveAnswered(s.connections, fd, p);
    OneOutput(Deliver(fd, p));
    var t := AnswerHead(s, p).0;
    forall i | 0 <= i < |t.queue| ensures Live(t.connections, t.queue[i].fd) {
      assert t.queue[i] == s.queue[i + 1];
    }
  }

  lemma HeadIsForwarded(t: State)
    requires UniqueFds(t.connections) && AllLive(t)
    ensures Forwards(ForwardHead(t)) == t.queue[..Min(1, |t.queue|)] && Deliveries(ForwardHead(t)) == []
  {
    hide Forwards, Deliveries, PerConnection, UniqueFds, Live;
    if t.queue == [] {
      OneOutput(Forward(Queued(0, [])));
    } else {
      OneConnection(t.connections, t.queue[0].fd, Forward(t.queue[0]));
      OneOutput(Forward(t.queue[0]));
    }
  }

  lemma Logged(sent: seq<Output>, out: seq<Output>, more: seq<Output>)
    ensures Forwards(sent + (out + more)) == Forwards(sent) + (Forwards(out) + Forwards(more))
    ensures Deliveries(sent + (out + more)) == Deliveries(sent) + Deliveries(out) + Deliveries(more)
  {
    hide Forwards, Deliveries;
    ForwardsAppend(out, more);
    DeliveriesAppend(out, more);
    ForwardsAppend(sent, out + more);
    DeliveriesAppend(sent, out + more);
    Regroup(Deliveries(sent), Deliveries(out), Deliveries(more));
  }

  lemma OneMoreAnswered(handed: seq<(int, ModemPacket)>, arrivals: seq<Queued>, answers: seq<ModemPacket>,
      p: ModemPacket)
    requires AnsweredInTurn(handed, arrivals, answers) && |answers| < |arrivals|
    ensures AnsweredInTurn(handed + [(arrivals[|answers|].fd, p)], arrivals, answers + [p])
  {
  }

  lemma OthersKeepFifo(s: State, out: seq<Output>, sent: seq<Output>, arrivals: seq<Queued>, answers: seq<ModemPacket>)
    requires Fifo(s, sent, arrivals, answers) && Forwards(out) == [] && Deliveries(out) == []
    ensures Fifo(s, sent + out, arrivals, answers)
  {
    hide Forwards, Deliveries;
    ForwardsAppend(sent, out);
    DeliveriesAppend(sent, out);
  }

  lemma {:induction false} BroadcastIsOther(connections: seq<Connection>, p: ModemPacket)
    requires p.FromService?
    ensures Forwards(Broadcast(connections, p)) == [] && Deliveries(Broadcast(connections, p)) == []
  {
    if connections != [] {
      var con := connections[0];
      RecordsAreOther(con.fd, con.clients, p);
      BroadcastIsOther(connections[1..], p);
      hide Forwards, Deliveries;
      ForwardsAppend(DeliverTo(con.fd, con.clients, p), Broadcast(connections[1..], p));
      DeliveriesAppend(DeliverTo(con.fd, con.clients, p), Broadcast(connections[1..], p));
    }
  }

  lemma {:induction false} RecordsAreOther(fd: int, clients: seq<Client>, p: ModemPacket)
    requires p.FromService?
    ensures Forwards(DeliverTo(fd, clients, p)) == [] && Deliveries(DeliverTo(fd, clients, p)) == []
  {
    hide Forwards, Deliveries;
    OneOutput(Deliver(fd, p));
    if clients != [] {
      RecordsAreOther(fd, clients[1..], p);
      var first := if Addresses(p, clients[0]) then [Deliver(fd, p)] else [];
      ForwardsAppend(first, DeliverTo(fd, clients[1..], p));
      DeliveriesAppend(first, DeliverTo(fd, clients[1..], p));
    }
  }

  // ---------------------------------------------------------------- every run

  /** Every orderly run is a FIFO. */
  lemma {:induction false} EveryRunIsFifo(events: seq<Event>)
    requires Orderly(events)
    ensures Fifo(Run(events), Sent(events), Arrivals(events), Answers(events))
    decreases |events|
  {
    hide Fifo, Forwards, Deliveries, Live, Broadcast, ReceiveFromModem, Cleanup;
    if events == [] {
      NothingIsFifo();
    } else {
      var past, e := Past(events), Last(events);
      EveryRunIsFifo(past);
      StepKeepsFifo(past, e);
    }
  }

  lemma NothingIsFifo()
    ensures Fifo(State([], []), [], [], [])
  {
  }

  lemma StepKeepsFifo(past: seq<Event>, e: Event)
    requires Fifo(Run(past), Sent(past), Arrivals(past), Answers(past)) && Allowed(past, e)
    ensures var (t, out) := Step(Run(past), e);
      Fifo(t, Sent(past) + out, Arrivals(past) + Arrival(e), Answers(past) + Answer(e))
  {
    hide Run, Sent, Arrivals, Answers, Forwards, Deliveries, Live, Broadcast, Fifo, Cleanup;
    var s, sent, arrivals, answers := Run(past), Sent(past), Arrivals(past), Answers(past);
    assert sent + [] == sent && arrivals + [] == arrivals && answers + [] == answers;
    match e
    case Accept(fd) => AcceptKeepsFifo(s, fd, sent, arrivals, answers);
    case Hangup(fd) => HangupKeepsFifo(s, fd, sent, arrivals, answers);
    case FromClient(fd, p) =>
      if p.Control? && !p.sync {
        RequestKeepsFifo(s, Queued(fd, p.body), sent, arrivals, answers);
      } else if p.ToService? {
        OneOutput(Pass(p));
        OthersKeepFifo(s, [Pass(p)], sent, arrivals, answers);
      }
    case FromModem(p) =>
      if p.Response? {
        OneIsOutstanding(s, sent, arrivals, answers);
        AnswerKeepsFifo(s, p, sent, arrivals, answers);
      } else {
        BroadcastIsOther(s.connections, p);
        OthersKeepFifo(s, Broadcast(s.connections, p), sent, arrivals, answers);
      }
  }

  /** At most one request is outstanding, namely the head of the queue. */
  lemma OneIsOutstanding(s: State, sent: seq<Output>, arrivals: seq<Queued>, answers: seq<ModemPacket>)
    requires Fifo(s, sent, arrivals, answers)
    ensures |answers| <= |Forwards(sent)| <= |answers| + 1
    ensures |Forwards(sent)| == |answers| + 1 <==> s.queue != []
    ensures s.queue != [] ==> Forwards(sent)[|answers|] == s.queue[0] == arrivals[|answers|]
    ensures |answers| < |Forwards(sent)| ==> |answers| < |arrivals|
  {
  }

  // ---------------------------------------------------------------- who holds which ids

  /** What a connection should hold: granted ids minus released ones, from the answers to it only. A
      descriptor starts afresh when it is accepted or closed. */
  ghost function Held(events: seq<Event>, fd: int): multiset<Client> {
    if events == [] then multiset{}
    else
      var past, e := Past(events), Last(events);
      match e
      case Accept(f) => if f == fd then multiset{} else Held(past, fd)
      case Hangup(f) => if f == fd then multiset{} else Held(past, fd)
      case FromClient(_, _) => Held(past, fd)
      case FromModem(p) =>
        var n := |Answers(past)|;
        if p.Response? && n < |Arrivals(past)| && Arrivals(past)[n].fd == fd then After(Held(past, fd), p)
        else Held(past, fd)
  }

  ghost function After(held: multiset<Client>, p: ModemPacket): multiset<Client>
    requires p.Response?
  {
    if p.result != 0 || p.error != 0 || p.kind == OtherResp then held
    else if p.kind == GetClientIdResp then held + multiset{p.client}
    else held - multiset{p.client}
  }

  lemma BookkeepAfter(clients: seq<Client>, p: ModemPacket)
    requires p.Response?
    ensures multiset(Bookkeep(clients, p)) == After(multiset(clients), p)
  {
  }

  ghost predicate HoldsItsIds(con: Connection, events: seq<Event>) {
    multiset(con.clients) == Held(events, con.fd)
  }

  /** In every orderly run, the records of a connection are its granted minus its released ids. */
  lemma {:induction false} RecordsAreHeld(events: seq<Event>)
    requires Orderly(events)
    ensures forall k :: 0 <= k < |Run(events).connections| ==> HoldsItsIds(Run(events).connections[k], events)
    decreases |events|
  {
    hide Fifo, Held, Live, Answered, Broadcast, FindConnection, WithoutFirst, Bookkeep, Arrivals, Answers, Sent,
         Forwards, HoldsItsIds;
    if events != [] {
      var past, e := Past(events), Last(events);
      RecordsAreHeld(past);
      EveryRunIsFifo(past);
      var s, t := Run(past), Run(events);
      FifoFds(s, Sent(past), Arrivals(past), Answers(past));
      forall k | 0 <= k < |t.connections| ensures HoldsItsIds(t.connections[k], events) {
        match e
        case Accept(fd) =>
          AcceptHeld(events, k);
        case Hangup(fd) =>
          HangupHeld(events, k);
        case FromClient(fd, p) =>
          UnchangedHeld(events, s.connections[k]);
        case FromModem(p) =>
          if p.Response? {
            AnswerHeld(events, k);
          } else {
            UnchangedHeld(events, s.connections[k]);
          }
      }
    }
  }

  lemma FifoFds(s: State, sent: seq<Output>, arrivals: seq<Queued>, answers: seq<ModemPacket>)
    requires Fifo(s, sent, arrivals, answers)
    ensures UniqueFds(s.connections)
  {
  }

  lemma UnchangedHeld(events: seq<Event>, con: Connection)
    requires events != [] && HoldsItsIds(con, Past(events))
    requires Last(events).FromClient? || (Last(events).FromModem? && !Last(events).answer.Response?)
    ensures HoldsItsIds(con, events)
  {
  }

  lemma AcceptHeld(events: seq<Event>, k: nat)
    requires events != [] && Last(events).Accept? && !Live(Run(Past(events)).connections, Last(events).fd)
    requires k < |Run(events).connections|
    requires forall j :: 0 <= j < |Run(Past(events)).connections| ==>
               HoldsItsIds(Run(Past(events)).connections[j], Past(events))
    ensures HoldsItsIds(Run(events).connections[k], events)
  {
    var earlier := Run(Past(events)).connections;
    assert Run(events).connections == earlier + [Connection(Last(events).fd, [])];
    if k < |earlier| {
      assert HoldsItsIds(earlier[k], Past(events));
    }
  }

  lemma RunStep(events: seq<Event>)
    requires events != []
    ensures Run(events) == Step(Run(Past(events)), Last(events)).0
  {
  }

  lemma HeldAfterHangup(events: seq<Event>)
    requires events != [] && Last(events).Hangup?
    ensures forall fd :: fd != Last(events).fd ==> Held(events, fd) == Held(Past(events), fd)
  {
  }

  lemma HangupHeld(events: seq<Event>, k: nat)
    requires events != [] && Last(events).Hangup? && UniqueFds(Run(Past(events)).connections)
    requires k < |Run(events).connections|
    requires forall j :: 0 <= j < |Run(Past(events)).connections| ==>
               HoldsItsIds(Run(Past(events)).connections[j], Past(events))
    ensures HoldsItsIds(Run(events).connections[k], events)
  {
    hide FindConnection, WithoutFirst, Run, Held, Past, Last;
    RunStep(events);
    HeldAfterHangup(events);
    var s, fd := Run(Past(events)), Last(events).fd;
    var gone := FindConnection(s.connections, fd);
    var j := if k < gone then k else k + 1;
    if gone == |s.connections| {
      assert HoldsItsIds(s.connections[k], Past(events));
    } else {
      assert Run(events).connections[k] == s.connections[j];
      assert HoldsItsIds(s.connections[j], Past(events));
      assert j > gone ==> s.connections[gone].fd != s.connections[j].fd;
    }
  }

  lemma AnswerHeld(events: seq<Event>, k: nat)
    requires events != [] && Last(events).FromModem? && Last(events).answer.Response?
    requires var past := Past(events); Fifo(Run(past), Sent(past), Arrivals(past), Answers(past))
    requires k < |Run(events).connections|
    requires forall j :: 0 <= j < |Run(Past(events)).connections| ==>
               HoldsItsIds(Run(Past(events)).connections[j], Past(events))
    ensures HoldsItsIds(Run(events).connections[k], events)
  {
    hide Answered, Bookkeep, Arrivals, Answers, Sent, Forwards, Deliveries, After, ForwardHead;
    var past := Past(events);
    var s, p := Run(past), Last(events).answer;
    assert Run(events) == ReceiveFromModem(s, p).0;
    assert HoldsItsIds(s.connections[k], past);
    BookkeepAfter(s.connections[k].clients, p);
  }

  // ---------------------------------------------------------------- packets of the services

  /** How many records a packet addresses: those with its client id, or all of its service for 0. */
  function AddressedRecords(clients: seq<Client>, p: ModemPacket): nat
    requires p.FromService?
  {
    if clients == [] then 0 else (if Addresses(p, clients[0]) then 1 else 0) + AddressedRecords(clients[1..], p)
  }

  lemma {:induction false} RecordDeliveries(fd: int, clients: seq<Client>, p: ModemPacket)
    requires p.FromService?
    ensures multiset(DeliverTo(fd, clients, p))[Deliver(fd, p)] == AddressedRecords(clients, p)
    ensures forall f :: f != fd ==> multiset(DeliverTo(fd, clients, p))[Deliver(f, p)] == 0
  {
    if clients != [] {
      RecordDeliveries(fd, clients[1..], p);
    }
  }

  lemma {:induction false} NoDeliveries(connections: seq<Connection>, fd: int, p: ModemPacket)
    requires p.FromService? && !Live(connections, fd)
    ensures multiset(Broadcast(connections, p))[Deliver(fd, p)] == 0
  {
    hide DeliverTo, Live;
    if connections != [] {
      RecordDeliveries(connections[0].fd, connections[0].clients, p);
      LiveTail(connections, fd);
      NoDeliveries(connections[1..], fd, p);
    }
  }

  /** A packet of a service reaches a connection once for each record there that it addresses. */
  lemma {:induction false} ServicePacketsReachHolders(connections: seq<Connection>, k: nat, p: ModemPacket)
    requires p.FromService? && UniqueFds(connections) && k < |connections|
    ensures multiset(Broadcast(connections, p))[Deliver(connections[k].fd, p)] ==
            AddressedRecords(connections[k].clients, p)
  {
    var fd := connections[k].fd;
    hide DeliverTo, Live, AddressedRecords;
    RecordDeliveries(connections[0].fd, connections[0].clients, p);
    if k == 0 {
      NotAgain(connections);
      NoDeliveries(connections[1..], fd, p);
    } else {
      assert connections[0].fd != fd;
      ServicePacketsReachHolders(connections[1..], k - 1, p);
    }
  }

  /** Those are the records with the packet's client id; and for 0, the broadcast, all records of the
      packet's service, whatever their ids. */
  lemma {:induction false} AddressedRecordsAre(clients: seq<Client>, p: ModemPacket)
    requires p.FromService?
    ensures p.clientId != 0 ==> AddressedRecords(clients, p) == multiset(clients)[Client(p.qmiType, p.clientId)]
    ensures p.clientId == 0 ==> AddressedRecords(clients, p) == |RecordsOfService(clients, p.qmiType)|
  {
    if clients != [] {
      AddressedRecordsAre(clients[1..], p);
      assert clients == [clients[0]] + clients[1..];
    }
  }

  function RecordsOfService(clients: seq<Client>, qmiType: byte): (r: seq<Client>)
    ensures forall c :: c in r <==> c in clients && c.qmiType == qmiType
  {
    if clients == [] then []
    else (if clients[0].qmiType == qmiType then [clients[0]] else []) + RecordsOfService(clients[1..], qmiType)
  }

  // ---------------------------------------------------------------- which hangups are harmless

  /** The modem works on the head of the queue, and every queued request has its connection. */
  ghost predicate Sound(s: State, outstanding: seq<Queued>) {
    UniqueFds(s.connections) && AllLive(s) && outstanding == s.queue[..Min(1, |s.queue|)]
  }

  function RequestsOf(queue: seq<Queued>, fd: int): nat {
    if queue == [] then 0 else (if queue[0].fd == fd then 1 else 0) + RequestsOf(queue[1..], fd)
  }

  lemma {:induction false} FirstRemoved(queue: seq<Queued>, fd: int)
    ensures RequestsOf(WithoutFirst(queue, fd), fd) ==
            if RequestsOf(queue, fd) == 0 then 0 else RequestsOf(queue, fd) - 1
    ensures forall q :: q in WithoutFirst(queue, fd) ==> q in queue
    ensures queue != [] && queue[0].fd != fd ==> WithoutFirst(queue, fd) != [] && WithoutFirst(queue, fd)[0] == queue[0]
  {
    if queue != [] && queue[0].fd != fd {
      FirstRemoved(queue[1..], fd);
      assert WithoutFirst(queue, fd)[1..] == WithoutFirst(queue[1..], fd);
    }
  }

  lemma {:induction false} NoRequests(queue: seq<Queued>, fd: int)
    ensures RequestsOf(queue, fd) == 0 <==> forall q :: q in queue ==> q.fd != fd
  {
    if queue != [] {
      NoRequests(queue[1..], fd);
      assert queue == [queue[0]] + queue[1..];
    }
  }

  lemma LiveWithout(connections: seq<Connection>, k: nat, fd: int)
    requires UniqueFds(connections) && k < |connections|
    ensures UniqueFds(connections[..k] + connections[k + 1..])
    ensures Live(connections[..k] + connections[k + 1..], fd) <==> Live(connections, fd) && fd != connections[k].fd
  {
    var rest := connections[..k] + connections[k + 1..];
    forall i | 0 <= i < |rest| ensures rest[i] == connections[if i < k then i else i + 1] {
    }
    if Live(connections, fd) && fd != connections[k].fd {
      var j := Where(connections, fd);
      assert rest[if j < k then j else j - 1].fd == fd;
    }
  }

  /** A connection can close without harm exactly when it has at most one request in the queue and that
      one is not with the modem. Otherwise what remains in the queue no longer agrees with what the modem
      works on, or waits for a connection that is gone and will never be forwarded. */
  lemma HangupIsHarmless(s: State, fd: int, outstanding: seq<Queued>)
    requires Sound(s, outstanding) && Live(s.connections, fd)
    ensures Sound(Cleanup(s, fd), outstanding) <==>
            RequestsOf(s.queue, fd) <= 1 && (s.queue != [] ==> s.queue[0].fd != fd)
  {
    hide WithoutFirst, FindConnection, RequestsOf, UniqueFds, Live;
    var k := FindConnection(s.connections, fd);
    assert k < |s.connections| by {
      LiveIsFound(s.connections, fd);
    }
    var t := Cleanup(s, fd);
    FirstRemoved(s.queue, fd);
    NoRequests(s.queue, fd);
    NoRequests(t.queue, fd);
    forall f ensures Live(t.connections, f) <==> Live(s.connections, f) && f != fd {
      LiveWithout(s.connections, k, f);
    }
    LiveWithout(s.connections, k, fd);
    AllLiveMeans(s);
    AllLiveMeans(t);
    hide AllLive;
    if s.queue == [] {
      assert t.queue == [];
    }
  }

  lemma AllLiveMeans(s: State)
    ensures AllLive(s) <==> forall q :: q in s.queue ==> Live(s.connections, q.fd)
  {
    hide Live;
    if AllLive(s) {
      forall q | q in s.queue ensures Live(s.connections, q.fd) {
        var i :| 0 <= i < |s.queue| && s.queue[i] == q;
      }
    }
  }

  lemma LiveIsFound(connections: seq<Connection>, fd: int)
    requires Live(connections, fd)
    ensures FindConnection(connections, fd) < |connections|
  {
    var k := Where(connections, fd);
    hide FindConnection;
    assert FindConnection(connections, fd) <= k;
  }

  /** A connection closes while its request is with the modem: the modem's answer to that request is
      then handed to the next client in the queue, whose own request was never forwarded. */
  lemma HangupMisdirectsTheAnswer(a: seq<byte>, b: seq<byte>, p: ModemPacket)
    requires p.Response?
    ensures var s := State([], [Connection(5, []), Connection(6, [])]);
      var (s1, out1) := Step(s, FromClient(5, Control(false, a)));
      var (s2, out2) := Step(s1, FromClient(6, Control(false, b)));
      var (s3, out3) := Step(s2, Hangup(5));
      var (_, out4) := Step(s3, FromModem(p));
      out1 == [Forward(Queued(5, a))] && out2 == [] && out3 == [] && out4 == [Deliver(6, p)]
  {
    hide Bookkeep;
    var c5, c6 := Connection(5, []), Connection(6, []);
    assert [c5, c6][1..] == [c6];
    assert [Queued(5, a), Queued(6, b)][1..] == [Queued(6, b)];
    var s := State([], [c5, c6]);
    var s1 := Step(s, FromClient(5, Control(false, a))).0;
    assert s1.queue == [Queued(5, a)];
    var s2 := Step(s1, FromClient(6, Control(false, b))).0;
    assert s2.queue == [Queued(5, a), Queued(6, b)];
    var s3 := Step(s2, Hangup(5)).0;
    assert FindConnection([c5, c6], 5) == 0;
    assert s3 == State([Queued(6, b)], [c6]);
    assert PerConnection([c6], 6, Deliver(6, p)) == [Deliver(6, p)];
    assert [Deliver(6, p)] + [] == [Deliver(6, p)];
  }
}
