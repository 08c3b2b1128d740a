/** What the QRTR proxy sends, event by event and over every run: requests to the services, packets back
    to the clients, and its own answers. Connections, records and services are named by their places in
    the lists. */
module QrtrAnswers {
  import opened Bytes
  import opened QrtrProxy
  import opened QrtrLaws

  // ---------------------------------------------------------------- who is meant

  /** Connection `k` is the first one with the descriptor. */
  ghost predicate FirstConnection(s: State, k: nat, fd: int) {
    k < |s.connections| && s.connections[k].fd == fd && forall j :: 0 <= j < k ==> s.connections[j].fd != fd
  }

  /** Service `j` is the first one of the type. */
  ghost predicate FirstService(services: seq<Service>, j: nat, qmiType: byte) {
    j < |services| && services[j].service == qmiType as nat &&
    forall i :: 0 <= i < j ==> services[i].service != qmiType as nat
  }

  lemma FoundConnection(s: State, k: nat, fd: int)
    requires FirstConnection(s, k, fd)
    ensures FindConnection(s.connections, fd) == k
  {
  }

  lemma {:induction false} FoundService(services: seq<Service>, j: nat, qmiType: byte)
    requires FirstService(services, j, qmiType)
    ensures FindService(services, qmiType) == Some(services[j])
    decreases j
  {
    if j > 0 {
      assert services[0].service != qmiType as nat;
      assert forall i :: 0 <= i < j - 1 ==> services[1..][i] == services[i + 1];
      FoundService(services[1..], j - 1, qmiType);
    }
  }

  // ---------------------------------------------------------------- requests

  /** A request under any record of the connection leaves from node 1 and the port with the number of the
      client id, to the first service of the type. */
  lemma RequestGoesOut(s: State, fd: int, k: nat, i: nat, j: nat, payload: seq<byte>)
    requires Lockstep(s) && FirstConnection(s, k, fd) && i < |s.connections[k].clients|
    requires FirstService(s.services, j, s.connections[k].clients[i].qmiType)
    requires s.connections[k].clients[i].qmiType != 0
    ensures var c, srv := s.connections[k].clients[i], s.services[j];
      0 < c.clientId < 240 &&
      Receive(s, fd, Request(c.qmiType, c.clientId as byte, payload)) ==
      (s, [ToModem(1, c.clientId, srv.node, srv.port, payload)])
  {
    hide FindConnection, FindClient, FindService, LivePorts, Lockstep;
    var clients := s.connections[k].clients;
    var c := clients[i];
    FoundConnection(s, k, fd);
    FoundService(s.services, j, c.qmiType);
    TwinAt(s, k, i);
    var found := FindClient(clients, c.qmiType, c.clientId);
    assert found <= i;
    TwinAt(s, k, found);
  }

  /** Without a record of that type and id, or without a service of the type, nothing is sent; and from a
      descriptor that is no connection nothing is taken at all. */
  lemma RequestWithoutRecord(s: State, fd: int, k: nat, qmiType: byte, clientId: byte, payload: seq<byte>)
    requires FirstConnection(s, k, fd)
    requires (forall c :: c in s.connections[k].clients ==> c.qmiType != qmiType || c.clientId != clientId as nat) ||
             (forall srv :: srv in s.services ==> srv.service != qmiType as nat)
    ensures Receive(s, fd, Request(qmiType, clientId, payload)) == (s, [])
  {
    hide FindConnection, FindClient, FindService;
    FoundConnection(s, k, fd);
    var clients := s.connections[k].clients;
    var i := FindClient(clients, qmiType, clientId as nat);
    assert i < |clients| ==> clients[i] in clients;
  }

  lemma StrangerIsIgnored(s: State, fd: int, m: Message)
    requires forall k :: 0 <= k < |s.connections| ==> s.connections[k].fd != fd
    ensures Receive(s, fd, m) == (s, [])
  {
    hide FindConnection;
    assert FindConnection(s.connections, fd) == |s.connections|;
  }

  // ---------------------------------------------------------------- the proxy's own answers

  /** A version request is answered to the client; other control requests are not. A request for an id of
      an unknown service is refused and changes nothing. */
  lemma ControlIsAnswered(s: State, fd: int, k: nat, tid: nat, qmiType: byte)
    requires FirstConnection(s, k, fd)
    ensures Receive(s, fd, GetVersion(tid)) == (s, [Version(fd, tid)])
    ensures Receive(s, fd, Sync) == (s, []) == Receive(s, fd, OtherControl)
    ensures (forall srv :: srv in s.services ==> srv.service != qmiType as nat) ==>
              Receive(s, fd, GetClientId(tid, qmiType)) == (s, [Granted(fd, tid, qmiType, 0, false)])
  {
    hide FindConnection, FindService;
    FoundConnection(s, k, fd);
  }

  /** An id of a known service is granted, as long as one of the 239 is free, and it is one that was not
      in use; otherwise the answer is a failure. */
  lemma GrantIsAnswered(s: State, fd: int, k: nat, tid: nat, qmiType: byte)
    requires Lockstep(s) && FirstConnection(s, k, fd)
    requires exists srv :: srv in s.services && srv.service == qmiType as nat
    ensures Full(s) ==> Receive(s, fd, GetClientId(tid, qmiType)).1 == [Granted(fd, tid, qmiType, 0, false)]
    ensures !Full(s) ==> exists id ::
              1 <= id < 240 && id !in LivePorts(s.connections) &&
              Receive(s, fd, GetClientId(tid, qmiType)).1 == [Granted(fd, tid, qmiType, id, true)]
  {
    hide FindConnection, FindService, Lockstep, LivePorts, Allocate;
    FoundConnection(s, k, fd);
    AllocateKeepsLockstep(s, k, qmiType);
    AllocatedId(s, k, qmiType);
    var id := Allocate(s, k, qmiType).1;
    assert Receive(s, fd, GetClientId(tid, qmiType)).1 == [Granted(fd, tid, qmiType, id, id != 0)];
  }

  lemma AllocatedId(s: State, k: nat, qmiType: byte)
    requires Lockstep(s) && k < |s.connections|
    ensures Allocate(s, k, qmiType).1 < 240
  {
    hide FirstFree, LivePorts;
    TablesAgree(s);
  }

  /** A release is always answered; if the connection has the record, the modem is told first. */
  lemma ReleaseIsAnswered(s: State, fd: int, k: nat, tid: nat, qmiType: byte, clientId: byte)
    requires Lockstep(s) && FirstConnection(s, k, fd)
    ensures var c := Client(qmiType, clientId as nat, 1, clientId as nat);
      Receive(s, fd, ReleaseClientId(tid, qmiType, clientId)).1 ==
      (if c in s.connections[k].clients then [DelClient(1, clientId as nat)] else []) +
      [Released(fd, tid, qmiType, clientId)]
    ensures Client(qmiType, clientId as nat, 1, clientId as nat) !in s.connections[k].clients ==>
              Receive(s, fd, ReleaseClientId(tid, qmiType, clientId)).0 == s
  {
    hide FindConnection, FindClient, Lockstep, Freed;
    FoundConnection(s, k, fd);
    var clients := s.connections[k].clients;
    var i := FindClient(clients, qmiType, clientId as nat);
    if i < |clients| {
      TwinAt(s, k, i);
    }
  }

  /** A hangup tells the modem about every record of the connection, in order. */
  lemma HangupTellsModem(s: State, fd: int, k: nat, modem: nat)
    requires FirstConnection(s, k, fd)
    ensures Step(s, Hangup(fd), modem).1 == Deletions(s.connections[k].clients)
  {
    hide FindConnection, ReleaseAll;
    FoundConnection(s, k, fd);
    AllAreReleased(s, k);
  }

  function Deletions(clients: seq<Client>): seq<Output> {
    seq(|clients|, i requires 0 <= i < |clients| => DelClient(clients[i].nodeId, clients[i].portId))
  }

  lemma {:induction false} AllAreReleased(s: State, k: nat)
    requires k < |s.connections|
    ensures ReleaseAll(s, k).1 == Deletions(s.connections[k].clients)
    decreases |s.connections[k].clients|
  {
    hide Release, ReleaseAll;
    var clients := s.connections[k].clients;
    if clients == [] {
      NothingToRelease(s, k);
    } else {
      ReleaseHead(s, k);
      var (t, sent) := Release(s, k, clients[0].qmiType, clients[0].clientId);
      HeadIsTold(s, k);
      AllAreReleased(t, k);
      assert Deletions(clients) == Deletions(clients[..1]) + Deletions(clients[1..]);
    }
  }

  lemma NothingToRelease(s: State, k: nat)
    requires k < |s.connections| && s.connections[k].clients == []
    ensures ReleaseAll(s, k) == (s, [])
  {
  }

  lemma HeadIsTold(s: State, k: nat)
    requires k < |s.connections| && s.connections[k].clients != []
    ensures var clients := s.connections[k].clients;
      Release(s, k, clients[0].qmiType, clients[0].clientId).1 == Deletions(clients[..1])
  {
    var clients := s.connections[k].clients;
    assert FindClient(clients, clients[0].qmiType, clients[0].clientId) == 0;
    hide FindClient, Freed;
  }

  // ---------------------------------------------------------------- packets of the modem

  /** What a packet is acknowledged with, if the modem wants that. */
  function Resumed(confirm: bool, dstNode: nat, dstPort: nat, srcNode: nat, srcPort: nat): seq<Output> {
    if confirm then [ResumeTx(dstNode, dstPort, srcNode, srcPort)] else []
  }

  /** A packet for node 1 and the port of a record goes to the connection of the record, under the type and
      client id of the record, and to nobody else. */
  lemma PacketReachesOwner(s: State, k: nat, i: nat, srcNode: nat, srcPort: nat, confirm: bool, payload: seq<byte>,
                           modem: nat)
    requires Lockstep(s) && k < |s.connections| && i < |s.connections[k].clients|
    ensures var con, c := s.connections[k], s.connections[k].clients[i];
      Step(s, Data(1, c.portId, srcNode, srcPort, confirm, payload), modem) ==
      (s, [ToClient(con.fd, c.qmiType, c.clientId, payload)] + Resumed(confirm, 1, c.portId, srcNode, srcPort))
  {
    hide Deliveries, Lockstep;
    TwinAt(s, k, i);
    RoutingIsExact(s, s.connections[k].clients[i].portId, payload);
  }

  /** A packet for a port that is not in use, or for another node, reaches nobody. */
  lemma PacketForNobody(s: State, node: nat, port: nat, srcNode: nat, srcPort: nat, confirm: bool, payload: seq<byte>,
                        modem: nat)
    requires Lockstep(s) && (node != 1 || port !in LivePorts(s.connections))
    ensures Step(s, Data(node, port, srcNode, srcPort, confirm, payload), modem) ==
            (s, Resumed(confirm, node, port, srcNode, srcPort))
  {
    hide Deliveries, LivePorts;
    if node == 1 {
      RoutingIsExact(s, port, payload);
    } else {
      NoneElsewhere(s.connections, node, port, payload);
    }
    var out := Resumed(confirm, node, port, srcNode, srcPort);
    assert [] + out == out;
  }

  lemma {:induction false} NoneElsewhere(connections: seq<Connection>, node: nat, port: nat, payload: seq<byte>)
    requires AllTwins(connections) && node != 1
    ensures Deliveries(connections, node, port, payload) == []
  {
    if connections != [] {
      assert Twins(connections[0].clients);
      NoRecordElsewhere(connections[0].fd, connections[0].clients, node, port, payload);
      forall k | 0 <= k < |connections[1..]| ensures Twins(connections[1..][k].clients) {
        assert connections[1..][k] == connections[k + 1];
      }
      NoneElsewhere(connections[1..], node, port, payload);
    }
  }

  lemma {:induction false} NoRecordElsewhere(fd: int, clients: seq<Client>, node: nat, port: nat, payload: seq<byte>)
    requires Twins(clients) && node != 1
    ensures DeliveriesTo(fd, clients, node, port, payload) == []
  {
    if clients != [] {
      assert Twin(clients[0]);
      NoRecordElsewhere(fd, clients[1..], node, port, payload);
    }
  }

  // ---------------------------------------------------------------- the services

  /** The services that were announced for the modem's node, in order. */
  function Announced(events: seq<Event>, modem: nat): seq<Service> {
    if events == [] then []
    else
      var e := events[|events| - 1];
      Announced(events[..|events| - 1], modem) +
      if e.ServerChange? && e.added && e.service.node == modem then [e.service] else []
  }

  /** In every run the proxy knows exactly these; what is taken back it still knows. */
  lemma {:induction false} ServicesAreAnnounced(events: seq<Event>, modem: nat)
    ensures Run(events, modem).services == Announced(events, modem)
    decreases |events|
  {
    hide Receive, Cleanup, Deliveries;
    if events != [] {
      var past, e := events[..|events| - 1], events[|events| - 1];
      ServicesAreAnnounced(past, modem);
      if e.FromClient? {
        ReceiveKeepsServices(Run(past, modem), e.fd, e.message);
      } else if e.Hangup? {
        CleanupKeepsServices(Run(past, modem), e.fd);
      }
    }
  }

  lemma ReceiveKeepsServices(s: State, fd: int, m: Message)
    ensures Receive(s, fd, m).0.services == s.services
  {
    hide FindConnection, FindClient, FindService, FirstFree, Marked, Freed, Forwarded;
  }

  lemma CleanupKeepsServices(s: State, fd: int)
    ensures Cleanup(s, fd).0.services == s.services
  {
    hide FindConnection, ReleaseAll;
    var k := FindConnection(s.connections, fd);
    if k < |s.connections| {
      ReleaseAllKeepsServices(s, k);
    }
  }

  lemma {:induction false} ReleaseAllKeepsServices(s: State, k: nat)
    requires k < |s.connections|
    ensures ReleaseAll(s, k).0.services == s.services
    decreases |s.connections[k].clients|
  {
    hide Release, ReleaseAll;
    var clients := s.connections[k].clients;
    if clients == [] {
      NothingToRelease(s, k);
    } else {
      ReleaseHead(s, k);
      ReleaseAllKeepsServices(Release(s, k, clients[0].qmiType, clients[0].clientId).0, k);
    }
  }

  lemma {:induction false} AnnouncedGrows(all: seq<Event>, from: nat, modem: nat)
    requires from <= |all|
    ensures Announced(all[..from], modem) <= Announced(all, modem)
    decreases |all|
  {
    if from < |all| {
      var past := all[..|all| - 1];
      AnnouncedGrows(past, from, modem);
      assert past[..from] == all[..from];
    } else {
      assert all[..from] == all;
    }
  }

  // ---------------------------------------------------------------- descriptors

  ghost predicate UniqueFds(connections: seq<Connection>) {
    forall j, k :: 0 <= j < k < |connections| ==> connections[j].fd != connections[k].fd
  }

  /** The system gives out no descriptor that is open. */
  ghost predicate FreshFds(events: seq<Event>, modem: nat) {
    forall n :: 0 <= n < |events| && events[n].Accept? ==> NoConnection(Run(events[..n], modem), events[n].fd)
  }

  ghost predicate NoConnection(s: State, fd: int) {
    forall k :: 0 <= k < |s.connections| ==> s.connections[k].fd != fd
  }

  lemma {:induction false} DescriptorsAreUnique(events: seq<Event>, modem: nat)
    requires WithinLimit(events, modem) && FreshFds(events, modem)
    ensures UniqueFds(Run(events, modem).connections)
    decreases |events|
  {
    hide Run, Step, Overflows, NoConnection;
    if events == [] {
      StartHasNone(modem);
    } else {
      var n := |events| - 1;
      var past := events[..n];
      WithinPrefix(events, n, modem);
      forall j | 0 <= j < n && past[j].Accept? ensures NoConnection(Run(past[..j], modem), past[j].fd) {
        assert past[..j] == events[..j];
      }
      DescriptorsAreUnique(past, modem);
      EveryRunKeepsLockstep(past, modem);
      StepKeepsFds(Run(past, modem), events[n], modem);
      RunStep(events, modem);
    }
  }

  lemma StartHasNone(modem: nat)
    ensures Run([], modem).connections == []
  {
  }

  lemma StepKeepsFds(s: State, e: Event, modem: nat)
    requires Lockstep(s) && UniqueFds(s.connections) && (e.Accept? ==> NoConnection(s, e.fd))
    ensures UniqueFds(Step(s, e, modem).0.connections)
  {
    hide Lockstep, Cleanup, Receive, FindConnection;
    match e
    case Accept(_) =>
    case Hangup(fd) => CleanupCuts(s, fd);
    case FromClient(fd, m) => ReceiveKeepsFds(s, fd, m);
    case ServerChange(_, _) =>
    case Data(_, _, _, _, _, _) =>
  }

  lemma ReceiveKeepsFds(s: State, fd: int, m: Message)
    ensures var t := Receive(s, fd, m).0;
      |t.connections| == |s.connections| &&
      forall k :: 0 <= k < |s.connections| ==> t.connections[k].fd == s.connections[k].fd
  {
    hide FindConnection, FindClient, FindService, FirstFree, Marked, Freed, Forwarded;
  }

  /** A new connection has no records, and is the first one with its descriptor if the descriptor is fresh;
      a connection that closes is gone; the others keep what they have. */
  lemma ConnectionsComeAndGo(s: State, fd: int, modem: nat)
    requires Lockstep(s) && UniqueFds(s.connections)
    ensures NoConnection(s, fd) ==>
              var t := Step(s, Accept(fd), modem).0;
              FirstConnection(t, |s.connections|, fd) && t.connections[|s.connections|].clients == [] &&
              t.connections[..|s.connections|] == s.connections && |t.connections| == |s.connections| + 1
    ensures var t := Step(s, Hangup(fd), modem).0;
      NoConnection(t, fd) &&
      forall con :: con in s.connections && con.fd != fd ==> con in t.connections
  {
    hide Cleanup, FindConnection, Lockstep;
    CleanupCuts(s, fd);
    var k := FindConnection(s.connections, fd);
    var t := Step(s, Hangup(fd), modem).0;
    if k < |s.connections| {
      forall con | con in s.connections && con.fd != fd ensures con in t.connections {
        var j :| 0 <= j < |s.connections| && s.connections[j] == con;
        assert t.connections[if j < k then j else j - 1] == con;
      }
    }
  }

  // ---------------------------------------------------------------- conversations

  /** Over every run in which the descriptors are fresh and nobody asks for an id too many: as long as the
      connection stays and does not release the id, a request under a record leaves from node 1 and the
      port of the record, to the service that was known when the record was seen; and what comes back for
      that port goes to that connection and to nobody else, with the type and id of the record. */
  lemma Conversation(all: seq<Event>, from: nat, modem: nat, fd: int, c: Client, j: nat, payload: seq<byte>,
                     srcNode: nat, srcPort: nat, confirm: bool)
    requires WithinLimit(all, modem) && FreshFds(all, modem) && from <= |all|
    requires Holds(Run(all[..from], modem).connections, fd, c) && c.qmiType != 0
    requires FirstService(Announced(all[..from], modem), j, c.qmiType)
    requires forall n :: from <= n < |all| ==> !Ends(all[n], fd, c)
    ensures var s, srv := Run(all, modem), Announced(all[..from], modem)[j];
      0 < c.clientId < 240 &&
      Receive(s, fd, Request(c.qmiType, c.clientId as byte, payload)) ==
      (s, [ToModem(1, c.clientId, srv.node, srv.port, payload)]) &&
      Step(s, Data(1, c.clientId, srcNode, srcPort, confirm, payload), modem) ==
      (s, [ToClient(fd, c.qmiType, c.clientId, payload)] + Resumed(confirm, 1, c.clientId, srcNode, srcPort))
  {
    hide Run, Receive, Step, Lockstep, Announced, Overflows;
    var s := Run(all, modem);
    EveryRunKeepsLockstep(all, modem);
    DescriptorsAreUnique(all, modem);
    RecordStays(all, from, modem, fd, c);
    ServicesAreAnnounced(all, modem);
    AnnouncedGrows(all, from, modem);
    var k, i := HeldAt(s.connections, fd, c);
    TwinAt(s, k, i);
    RequestGoesOut(s, fd, k, i, j, payload);
    PacketReachesOwner(s, k, i, srcNode, srcPort, confirm, payload, modem);
  }

  lemma HeldAt(connections: seq<Connection>, fd: int, c: Client) returns (k: nat, i: nat)
    requires Holds(connections, fd, c)
    ensures k < |connections| && connections[k].fd == fd && i < |connections[k].clients|
    ensures connections[k].clients[i] == c
  {
    k, i :| k < |connections| && connections[k].fd == fd && i < |connections[k].clients| &&
      connections[k].clients[i] == c;
  }
}
