/** The packets of the QMI proxy that are not control requests or their answers, event by event and over
    every run: what the clients send to the services of the modem, what the services send to the
    clients, and the control messages that answer nothing. */
module QmiProxyPackets {
  import opened Bytes
  import opened QmiProxy
  import opened QmiProxyLaws

  // ---------------------------------------------------------------- to the services

  function Passes(out: seq<Output>): seq<ClientPacket> {
    if out == [] then [] else (if out[0].Pass? then [out[0].packet] else []) + Passes(out[1..])
  }

  /** The packets for services among the events, as the clients sent them. */
  function ServiceRequests(events: seq<Event>): seq<ClientPacket> {
    if events == [] then []
    else
      var e := Last(events);
      ServiceRequests(Past(events)) + if e.FromClient? && e.packet.ToService? then [e.packet] else []
  }

  /** In every run, orderly or not, exactly the packets for services go through to the modem, unchanged,
      once each and in the order in which they arrived. */
  lemma {:induction false} ServicePacketsPass(events: seq<Event>)
    ensures Passes(Sent(events)) == ServiceRequests(events)
    decreases |events|
  {
    hide Passes, Step;
    if events == [] {
      NothingPasses();
    } else {
      var past, e := Past(events), Last(events);
      ServicePacketsPass(past);
      PassesAppend(Sent(past), Step(Run(past), e).1);
      StepPasses(Run(past), e);
    }
  }

  lemma NothingPasses()
    ensures Passes([]) == []
  {
  }

  lemma StepPasses(s: State, e: Event)
    ensures Passes(Step(s, e).1) == if e.FromClient? && e.packet.ToService? then [e.packet] else []
  {
    hide Passes, Cleanup, PerConnection, Broadcast, Answered;
    NothingPasses();
    match e
    case Accept(_) =>
    case Hangup(_) =>
    case FromClient(fd, p) =>
      PassesOne(Pass(p));
      if p.Control? {
        PassesOne(Forward(Queued(fd, p.body)));
      }
    case FromModem(p) => ModemPassesNothing(s, p);
  }

  lemma PassesOne(out: Output)
    ensures Passes([out]) == if out.Pass? then [out.packet] else []
  {
    assert [out][1..] == [];
  }

  lemma {:induction false} PassesAppend(a: seq<Output>, b: seq<Output>)
    ensures Passes(a + b) == Passes(a) + Passes(b)
  {
    if a == [] {
      assert a + b == b;
    } else {
      PassesAppend(a[1..], b);
      assert (a + b)[1..] == a[1..] + b;
      Regroup(if a[0].Pass? then [a[0].packet] else [], Passes(a[1..]), Passes(b));
    }
  }

  lemma ModemPassesNothing(s: State, p: ModemPacket)
    ensures Passes(ReceiveFromModem(s, p).1) == []
  {
    hide Passes, PerConnection, Broadcast, Answered;
    NothingPasses();
    match p
    case Response(_, _, _, _) =>
      var (t, out) := AnswerHead(s, p);
      PassesAppend(out, ForwardHead(t));
      if s.queue != [] {
        WalkPassesNothing(s.connections, s.queue[0].fd, Deliver(s.queue[0].fd, p));
      }
      ForwardPassesNothing(t);
    case Unsolicited => ForwardPassesNothing(s);
    case FromService(_, _, _) => BroadcastPassesNothing(s.connections, p);
  }

  lemma ForwardPassesNothing(s: State)
    ensures Passes(ForwardHead(s)) == []
  {
    hide Passes, PerConnection;
    NothingPasses();
    if s.queue != [] {
      WalkPassesNothing(s.connections, s.queue[0].fd, Forward(s.queue[0]));
    }
  }

  lemma {:induction false} WalkPassesNothing(connections: seq<Connection>, fd: int, out: Output)
    requires !out.Pass?
    ensures Passes(PerConnection(connections, fd, out)) == []
  {
    hide Passes;
    NothingPasses();
    if connections != [] {
      PassesOne(out);
      WalkPassesNothing(connections[1..], fd, out);
      PassesAppend(if connections[0].fd == fd then [out] else [], PerConnection(connections[1..], fd, out));
    }
  }

  lemma {:induction false} BroadcastPassesNothing(connections: seq<Connection>, p: ModemPacket)
    requires p.FromService?
    ensures Passes(Broadcast(connections, p)) == []
  {
    hide Passes, DeliverTo;
    NothingPasses();
    if connections != [] {
      var con := connections[0];
      RecordsPassNothing(con.fd, con.clients, p);
      BroadcastPassesNothing(connections[1..], p);
      PassesAppend(DeliverTo(con.fd, con.clients, p), Broadcast(connections[1..], p));
    }
  }

  lemma {:induction false} RecordsPassNothing(fd: int, clients: seq<Client>, p: ModemPacket)
    requires p.FromService?
    ensures Passes(DeliverTo(fd, clients, p)) == []
  {
    hide Passes;
    NothingPasses();
    if clients != [] {
      PassesOne(Deliver(fd, p));
      RecordsPassNothing(fd, clients[1..], p);
      PassesAppend(if Addresses(p, clients[0]) then [Deliver(fd, p)] else [], DeliverTo(fd, clients[1..], p));
    }
  }

  // ---------------------------------------------------------------- from the services

  /** In every orderly run, a packet of a service with a client id is delivered to a connection as often
      as the connection was granted that id without releasing it; nothing else goes out and no request
      or record changes. */
  lemma GrantedIdsReceive(events: seq<Event>, p: ModemPacket, k: nat)
    requires Orderly(events) && p.FromService? && p.clientId != 0 && k < |Run(events).connections|
    ensures var fd := Run(events).connections[k].fd;
      multiset(Step(Run(events), FromModem(p)).1)[Deliver(fd, p)] == Held(events, fd)[Client(p.qmiType, p.clientId)]
    ensures Step(Run(events), FromModem(p)).0 == Run(events)
  {
    hide Run, Held, Broadcast, AddressedRecords, Fifo, Orderly;
    var connections := Run(events).connections;
    EveryRunIsFifo(events);
    FifoFds(Run(events), Sent(events), Arrivals(events), Answers(events));
    RecordsAreHeld(events);
    assert HoldsItsIds(connections[k], events);
    ServicePacketsReachHolders(connections, k, p);
    AddressedRecordsAre(connections[k].clients, p);
  }

  /** With client id 0 it is delivered once for each record of the service. */
  lemma BroadcastReaches(s: State, p: ModemPacket, k: nat)
    requires UniqueFds(s.connections) && p.FromService? && p.clientId == 0 && k < |s.connections|
    ensures multiset(Step(s, FromModem(p)).1)[Deliver(s.connections[k].fd, p)] ==
            |RecordsOfService(s.connections[k].clients, p.qmiType)|
  {
    hide Broadcast, AddressedRecords, RecordsOfService;
    ServicePacketsReachHolders(s.connections, k, p);
    AddressedRecordsAre(s.connections[k].clients, p);
  }

  /** Whatever the records, a service's packet is the only thing that goes out, to connections only. */
  lemma OnlyThePacketGoesOut(s: State, p: ModemPacket)
    requires p.FromService?
    ensures forall out :: out in Step(s, FromModem(p)).1 ==>
              out.Deliver? && out.answer == p && Live(s.connections, out.fd)
  {
    hide Live;
    BroadcastDelivers(s.connections, p);
  }

  lemma {:induction false} BroadcastDelivers(connections: seq<Connection>, p: ModemPacket)
    requires p.FromService?
    ensures forall out :: out in Broadcast(connections, p) ==>
              out.Deliver? && out.answer == p && Live(connections, out.fd)
  {
    hide DeliverTo, Live;
    if connections != [] {
      var con := connections[0];
      RecordsDeliver(con.fd, con.clients, p);
      BroadcastDelivers(connections[1..], p);
      forall out | out in Broadcast(connections, p)
        ensures out.Deliver? && out.answer == p && Live(connections, out.fd)
      {
        LiveTail(connections, con.fd);
        if out in Broadcast(connections[1..], p) {
          LiveTail(connections, out.fd);
        }
      }
    }
  }

  lemma {:induction false} RecordsDeliver(fd: int, clients: seq<Client>, p: ModemPacket)
    requires p.FromService?
    ensures forall out :: out in DeliverTo(fd, clients, p) ==> out == Deliver(fd, p)
  {
    if clients != [] {
      RecordsDeliver(fd, clients[1..], p);
    }
  }

  // ---------------------------------------------------------------- control messages that answer nothing

  /** A synchronisation request changes nothing and is not passed on. */
  lemma SyncIsRefused(s: State, fd: int, body: seq<byte>)
    ensures Step(s, FromClient(fd, Control(true, body))) == (s, [])
  {
  }

  /** A control message without the response flag makes the proxy send the head of the queue again; an
      answer while nothing is queued is dropped. */
  lemma StrayControlMessages(s: State, p: ModemPacket)
    requires UniqueFds(s.connections) && AllLive(s)
    ensures p.Unsolicited? ==>
              Step(s, FromModem(p)) == (s, if s.queue == [] then [] else [Forward(s.queue[0])])
    ensures p.Response? && s.queue == [] ==> Step(s, FromModem(p)) == (s, [])
  {
    hide UniqueFds, Live, PerConnection;
    if s.queue != [] {
      assert Live(s.connections, s.queue[0].fd);
      OneConnection(s.connections, s.queue[0].fd, Forward(s.queue[0]));
    } else if p.Response? {
      assert AnswerHead(s, p) == (s, []) && ForwardHead(s) == [];
      assert ReceiveFromModem(s, p).1 == AnswerHead(s, p).1 + ForwardHead(s);
    }
  }

  // ---------------------------------------------------------------- who is connected

  function WithoutFd(fds: seq<int>, fd: int): seq<int> {
    if fds == [] then [] else if fds[0] == fd then fds[1..] else [fds[0]] + WithoutFd(fds[1..], fd)
  }

  /** The descriptors that were accepted and have not been closed since, in order. */
  function Open(events: seq<Event>): seq<int> {
    if events == [] then []
    else
      var e := Last(events);
      match e
      case Accept(fd) => Open(Past(events)) + [fd]
      case Hangup(fd) => WithoutFd(Open(Past(events)), fd)
      case _ => Open(Past(events))
  }

  function Fds(connections: seq<Connection>): (r: seq<int>)
    ensures |r| == |connections|
  {
    seq(|connections|, i requires 0 <= i < |connections| => connections[i].fd)
  }

  /** In every run the connections are those. */
  lemma {:induction false} ConnectionsAreOpen(events: seq<Event>)
    ensures Fds(Run(events).connections) == Open(events)
    decreases |events|
  {
    hide Fds, Cleanup, PerConnection, Broadcast, Answered;
    if events == [] {
      NoFds();
    } else {
      var past, e := Past(events), Last(events);
      ConnectionsAreOpen(past);
      var s := Run(past);
      match e
      case Accept(fd) => OneMoreFd(s.connections, Connection(fd, []));
      case Hangup(fd) => CleanupFds(s, fd);
      case FromClient(_, _) =>
      case FromModem(p) => ModemKeepsFds(s, p);
    }
  }

  lemma NoFds()
    ensures Fds([]) == []
  {
  }

  lemma OneMoreFd(connections: seq<Connection>, con: Connection)
    ensures Fds(connections + [con]) == Fds(connections) + [con.fd]
  {
  }

  lemma ModemKeepsFds(s: State, p: ModemPacket)
    ensures Fds(ReceiveFromModem(s, p).0.connections) == Fds(s.connections)
  {
    hide PerConnection, Broadcast, Answered, Bookkeep;
  }

  lemma CleanupFds(s: State, fd: int)
    ensures Fds(Cleanup(s, fd).connections) == WithoutFd(Fds(s.connections), fd)
  {
    hide FindConnection, WithoutFirst, WithoutFd;
    var k, fds := FindConnection(s.connections, fd), Fds(s.connections);
    RemovedFd(fds, fd, k);
    if k < |fds| {
      assert Fds(s.connections[..k] + s.connections[k + 1..]) == fds[..k] + fds[k + 1..];
    }
  }

  lemma {:induction false} RemovedFd(fds: seq<int>, fd: int, k: nat)
    requires k <= |fds| && (k < |fds| ==> fds[k] == fd) && forall j :: 0 <= j < k ==> fds[j] != fd
    ensures WithoutFd(fds, fd) == if k < |fds| then fds[..k] + fds[k + 1..] else fds
    decreases |fds|
  {
    hide WithoutFd;
    WithoutIs(fds, fd);
    if fds != [] {
      if k == 0 {
        assert fds[..0] + fds[1..] == fds[1..];
      } else {
        RemovedFd(fds[1..], fd, k - 1);
        assert [fds[0]] + fds[1..] == fds;
        if k < |fds| {
          OneInFront(fds[0], fds[1..], k - 1);
        }
      }
    }
  }

  lemma WithoutIs(fds: seq<int>, fd: int)
    ensures fds == [] ==> WithoutFd(fds, fd) == []
    ensures fds != [] ==> WithoutFd(fds, fd) == if fds[0] == fd then fds[1..] else [fds[0]] + WithoutFd(fds[1..], fd)
  {
  }

  lemma OneInFront(x: int, r: seq<int>, k: nat)
    requires k < |r|
    ensures [x] + (r[..k] + r[k + 1..]) == ([x] + r)[..k + 1] + ([x] + r)[k + 2..]
  {
    assert ([x] + r)[..k + 1] == [x] + r[..k];
    assert ([x] + r)[k + 2..] == r[k + 1..];
  }
}
