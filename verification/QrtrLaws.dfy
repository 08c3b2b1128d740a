/** The two id allocators of the QRTR proxy run in lockstep, and routing by port is exact. */
module QrtrLaws {
  import opened Bytes
  import opened QrtrProxy

  // ---------------------------------------------------------------- the live records

  function PortIds(clients: seq<Client>): (r: seq<nat>)
    ensures |r| == |clients| && forall i :: 0 <= i < |r| ==> r[i] == clients[i].portId
  {
    if clients == [] then [] else [clients[0].portId] + PortIds(clients[1..])
  }

  /** The ports of all records, connection by connection. */
  function LivePorts(connections: seq<Connection>): seq<nat> {
    if connections == [] then [] else PortIds(connections[0].clients) + LivePorts(connections[1..])
  }

  predicate Twin(c: Client) {
    c.clientId == c.portId && c.nodeId == NODE_MYSELF && 1 <= c.portId < CLIENT_IDS
  }

  ghost predicate Twins(clients: seq<Client>) {
    forall i :: 0 <= i < |clients| ==> Twin(clients[i])
  }

  ghost predicate AllTwins(connections: seq<Connection>) {
    forall k :: 0 <= k < |connections| ==> Twins(connections[k].clients)
  }

  ghost predicate Once(ports: seq<nat>) {
    forall p :: multiset(ports)[p] <= 1
  }

  /** A table marks exactly these ids, each with itself. */
  ghost predicate Marks(table: seq<byte>, ports: seq<nat>) {
    forall j :: 0 <= j < |table| ==> table[j] as nat == if j in ports then j else 0
  }

  /** Every record has its client id for port, no id is used twice anywhere, and both tables mark
      exactly the ids in use. */
  ghost predicate Lockstep(s: State) {
    |s.clientTable| == CLIENT_IDS && |s.portTable| == PORT_IDS && AllTwins(s.connections) &&
    Once(LivePorts(s.connections)) &&
    Marks(s.clientTable, LivePorts(s.connections)) && Marks(s.portTable, LivePorts(s.connections))
  }

  lemma {:induction false} PortsAppend(a: seq<Client>, b: seq<Client>)
    ensures PortIds(a + b) == PortIds(a) + PortIds(b)
  {
  }

  lemma {:induction false} LiveAppend(a: seq<Connection>, b: seq<Connection>)
    ensures LivePorts(a + b) == LivePorts(a) + LivePorts(b)
  {
    hide PortIds;
    if a == [] {
      assert a + b == b;
    } else {
      LiveAppend(a[1..], b);
      assert (a + b)[1..] == a[1..] + b && (a + b)[0] == a[0];
      var x, y, z := PortIds(a[0].clients), LivePorts(a[1..]), LivePorts(b);
      assert x + (y + z) == x + y + z;
    }
  }

  lemma LiveSplit(connections: seq<Connection>, k: nat)
    requires k < |connections|
    ensures LivePorts(connections) ==
            LivePorts(connections[..k]) + PortIds(connections[k].clients) + LivePorts(connections[k + 1..])
  {
    hide PortIds, LivePorts;
    var before, one, after := connections[..k], [connections[k]], connections[k + 1..];
    CutAt(connections, k);
    LiveAppend(before, one + after);
    LiveAppend(one, after);
    LiveOne(connections[k]);
    Regroup(LivePorts(before), LivePorts(one), LivePorts(after));
  }

  lemma CutAt<T>(s: seq<T>, k: nat)
    requires k < |s|
    ensures s == s[..k] + ([s[k]] + s[k + 1..])
  {
  }

  lemma LiveOne(con: Connection)
    ensures LivePorts([con]) == PortIds(con.clients)
  {
    assert [con][1..] == [];
  }

  /** Changing one connection changes the live ports by that connection's. */
  lemma LiveUpdate(connections: seq<Connection>, k: nat, con: Connection)
    requires k < |connections|
    ensures multiset(LivePorts(connections[k := con])) ==
            multiset(LivePorts(connections)) - multiset(PortIds(connections[k].clients)) +
            multiset(PortIds(con.clients))
  {
    hide PortIds, LivePorts;
    var updated := connections[k := con];
    LiveSplit(connections, k);
    LiveSplit(updated, k);
    assert updated[..k] == connections[..k] && updated[k + 1..] == connections[k + 1..];
  }

  // ---------------------------------------------------------------- allocating

  /** How many ids a set of distinct ids below `n` leaves free. */
  lemma {:induction false} Pigeonhole(ids: multiset<nat>, n: nat)
    requires n >= 1 && forall p :: p in ids ==> 1 <= p < n && ids[p] == 1
    ensures |ids| <= n - 1
    ensures |ids| == n - 1 <==> forall p :: 1 <= p < n ==> p in ids
    decreases n
  {
    if n == 1 {
      assert ids == multiset{};
    } else if n - 1 in ids {
      var less := ids - multiset{n - 1};
      Pigeonhole(less, n - 1);
      assert forall p :: 1 <= p < n - 1 ==> (p in ids <==> p in less);
    } else {
      Pigeonhole(ids, n - 1);
    }
  }

  lemma LiveInRange(connections: seq<Connection>, p: nat)
    requires AllTwins(connections) && p in LivePorts(connections)
    ensures 1 <= p < CLIENT_IDS
  {
    if p in PortIds(connections[0].clients) {
      var i :| 0 <= i < |connections[0].clients| && connections[0].clients[i].portId == p;
      assert Twin(connections[0].clients[i]);
    } else {
      assert AllTwins(connections[1..]) by {
        forall k | 0 <= k < |connections[1..]| ensures Twins(connections[1..][k].clients) {
          assert connections[1..][k] == connections[k + 1];
        }
      }
      LiveInRange(connections[1..], p);
    }
  }

  /** In lockstep, an id is free exactly when fewer than 239 records are live, and then both tables
      yield the same one. At 239, the client table yields none and the port table yields 240. */
  lemma TablesAgree(s: State)
    requires Lockstep(s)
    ensures var live := LivePorts(s.connections);
      var id := FirstFree(s.clientTable, 1);
      |live| <= CLIENT_IDS - 1 &&
      (|live| < CLIENT_IDS - 1 ==> 1 <= id < CLIENT_IDS && id !in live && FirstFree(s.portTable, 1) == id) &&
      (|live| == CLIENT_IDS - 1 ==> id == 0 && FirstFree(s.portTable, 1) == CLIENT_IDS)
  {
    hide FirstFree, LivePorts, AllTwins;
    var live := LivePorts(s.connections);
    var ids: multiset<nat> := multiset(live);
    forall p: nat | p in ids ensures 1 <= p < CLIENT_IDS && ids[p] == 1 {
      LiveInRange(s.connections, p);
    }
    Pigeonhole(ids, CLIENT_IDS);
    var id := FirstFree(s.clientTable, 1);
    var port := FirstFree(s.portTable, 1);
    assert forall p :: 1 <= p < CLIENT_IDS ==> (p in multiset(live) <==> s.clientTable[p] != 0);
    assert forall p :: 1 <= p < CLIENT_IDS ==> s.clientTable[p] == s.portTable[p];
    if |live| == CLIENT_IDS - 1 {
      assert CLIENT_IDS !in live by {
        if CLIENT_IDS in live {
          LiveInRange(s.connections, CLIENT_IDS);
        }
      }
      assert s.portTable[CLIENT_IDS] == 0;
    } else {
      var free :| 1 <= free < CLIENT_IDS && free !in multiset(live);
      assert s.clientTable[free] == 0;
    }
  }

  ghost predicate Full(s: State) {
    |LivePorts(s.connections)| >= 239
  }

  lemma Appended(connections: seq<Connection>, k: nat, client: Client)
    requires k < |connections|
    ensures var con := connections[k];
      multiset(LivePorts(connections[k := con.(clients := con.clients + [client])])) ==
      multiset(LivePorts(connections)) + multiset{client.portId}
  {
    hide LivePorts, PortIds;
    var con := connections[k];
    PortsAppend(con.clients, [client]);
    LiveUpdate(connections, k, con.(clients := con.clients + [client]));
    LiveSplit(connections, k);
    assert PortIds([client]) == [client.portId] by {
      assert |PortIds([client])| == 1;
    }
  }

  lemma TwinsUpdate(connections: seq<Connection>, k: nat, con: Connection)
    requires k < |connections| && AllTwins(connections) && Twins(con.clients)
    ensures AllTwins(connections[k := con])
  {
  }

  lemma MarkedMarks(table: seq<byte>, before: seq<nat>, after: seq<nat>, id: nat)
    requires Marks(table, before) && 0 < id < |table| && id < 256
    requires multiset(after) == multiset(before) + multiset{id}
    ensures Marks(Marked(table, id), after)
  {
    forall j ensures j in after <==> j in before || j == id {
      assert j in after <==> j in multiset(after);
      assert j in before <==> j in multiset(before);
    }
  }

  /** The allocators stay in lockstep exactly when fewer than 239 records were live; then the id granted
      is one that nobody holds. */
  lemma AllocateKeepsLockstep(s: State, k: nat, qmiType: byte)
    requires Lockstep(s) && k < |s.connections|
    ensures var (t, id) := Allocate(s, k, qmiType);
      (Lockstep(t) <==> !Full(s)) && (id != 0 <==> !Full(s)) && id !in LivePorts(s.connections) &&
      (!Full(s) ==> multiset(LivePorts(t.connections)) == multiset(LivePorts(s.connections)) + multiset{id})
  {
    hide LivePorts, FirstFree;
    TablesAgree(s);
    var (t, id) := Allocate(s, k, qmiType);
    var con := s.connections[k];
    var client := Client(qmiType, id, NODE_MYSELF, FirstFree(s.portTable, 1));
    Appended(s.connections, k, client);
    var before, after := LivePorts(s.connections), LivePorts(t.connections);
    if Full(s) {
      assert t.connections[k].clients[|con.clients|] == client;
      assert !Twin(client);
      assert !AllTwins(t.connections);
      if 0 in before {
        LiveInRange(s.connections, 0);
      }
    } else {
      TwinsUpdate(s.connections, k, con.(clients := con.clients + [client]));
      MarkedMarks(s.clientTable, before, after, id);
      MarkedMarks(s.portTable, before, after, id);
      OnceMore(before, after, id);
    }
  }

  lemma OnceMore(before: seq<nat>, after: seq<nat>, id: nat)
    requires Once(before) && id !in before && multiset(after) == multiset(before) + multiset{id}
    ensures Once(after)
  {
    assert id !in multiset(before);
  }

  /** The 240th record: the client is refused, but a record with client id 0 and port 240 stays behind. */
  lemma AllocationWhenFull(s: State, k: nat, qmiType: byte)
    requires Lockstep(s) && Full(s) && k < |s.connections|
    ensures var (t, id) := Allocate(s, k, qmiType);
      id == 0 && t.clientTable == s.clientTable && t.portTable == s.portTable[CLIENT_IDS := CLIENT_IDS as byte] &&
      t.connections == s.connections[k := s.connections[k].(clients := s.connections[k].clients +
                                       [Client(qmiType, 0, NODE_MYSELF, CLIENT_IDS)])]
  {
    hide LivePorts, FirstFree;
    TablesAgree(s);
  }

  // ---------------------------------------------------------------- beyond what a byte can hold

  /** A mark equals its id, so that the id can be freed again, exactly for ids below 256; and marking an id
      that was free is lost altogether, so that the next search finds it again, exactly if the id is a
      multiple of 256. */
  lemma BytesKeepIds(table: seq<byte>, id: nat)
    requires id == FirstFree(table, 1) && id != 0
    ensures Marked(table, id)[id] as nat == id <==> id < 256
    ensures Freed(Marked(table, id), id) == table <==> id < 256 || id % 256 == 0
    ensures Marked(table, id) == table <==> id % 256 == 0
    ensures FirstFree(Marked(table, id), 1) == id <==> id % 256 == 0
  {
    hide FirstFree;
    var after := Marked(table, id);
    assert after[id] as nat == id % 256;
    if id % 256 == 0 {
      assert after == table;
    } else {
      assert after[id] != table[id];
      if id < 256 {
        assert Freed(after, id) == table;
      } else {
        assert Freed(after, id) == after;
      }
    }
  }

  /** One connection to one service, asking for `n` client ids. */
  function Asking(fd: int, service: Service, n: nat): seq<Event> {
    [ServerChange(true, service), Accept(fd)] +
    seq(n, _ => FromClient(fd, GetClientId(0, ServiceType(service))))
  }

  function ServiceType(service: Service): byte {
    (service.service % 256) as byte
  }

  function Min(a: nat, b: nat): nat {
    if a <= b then a else b
  }

  /** A table with the ids 1 to `n` marked. */
  function Filled(size: nat, n: nat): seq<byte>
    requires n < 256
  {
    seq(size, i requires 0 <= i < size => if i <= n then i as byte else 0)
  }

  /** The records handed out: client ids run out at 239, ports stick at 256. */
  function Records(qmiType: byte, n: nat): seq<Client> {
    seq(n, i requires 0 <= i < n =>
      Client(qmiType, if i + 1 < CLIENT_IDS then i + 1 else 0, NODE_MYSELF, Min(i + 1, 256)))
  }

  function Exhausted(fd: int, service: Service, n: nat): State {
    State(Filled(CLIENT_IDS, Min(n, CLIENT_IDS - 1)), Filled(PORT_IDS, Min(n, 255)),
          [Connection(fd, Records(ServiceType(service), n))], [service])
  }

  lemma FilledFree(size: nat, n: nat)
    requires n < 256 && size > 0
    ensures FirstFree(Filled(size, n), 1) == if n + 1 < size then n + 1 else 0
  {
    hide FirstFree;
    var table := Filled(size, n);
    assert forall j :: 1 <= j < size ==> (table[j] == 0 <==> j > n);
    assert n + 1 < size ==> table[n + 1] == 0;
  }

  lemma MarkMore(size: nat, n: nat)
    requires n < 255 && n + 1 < size
    ensures Marked(Filled(size, n), n + 1) == Filled(size, n + 1)
  {
  }

  /** The tables and records after `n` requests. */
  lemma {:induction false} AskingExhausts(fd: int, service: Service, modem: nat, n: nat)
    requires service.node == modem && service.service < 256
    ensures Run(Asking(fd, service, n), modem) == Exhausted(fd, service, n)
    decreases n
  {
    hide FirstFree, Filled, Records, Run, Marked;
    var events, qmiType := Asking(fd, service, n), ServiceType(service);
    if n == 0 {
      AskingStarts(fd, service, modem);
    } else {
      var before := Asking(fd, service, n - 1);
      assert events[..|events| - 1] == before;
      AskingExhausts(fd, service, modem, n - 1);
      RunStep(events, modem);
      OneMoreAsked(fd, service, n - 1);
    }
  }

  lemma RunStep(events: seq<Event>, modem: nat)
    requires events != []
    ensures Run(events, modem) == Step(Run(events[..|events| - 1], modem), events[|events| - 1], modem).0
  {
  }

  lemma AskingStarts(fd: int, service: Service, modem: nat)
    requires service.node == modem
    ensures Run(Asking(fd, service, 0), modem) == Exhausted(fd, service, 0)
  {
    var events := Asking(fd, service, 0);
    assert events == [ServerChange(true, service), Accept(fd)];
    assert events[..1] == [ServerChange(true, service)] && events[..1][..0] == [];
    assert Run([], modem) == Start();
    assert Run(events[..1], modem) == Start().(services := [service]);
    assert Filled(CLIENT_IDS, 0) == seq(CLIENT_IDS, _ => 0 as byte);
    assert Filled(PORT_IDS, 0) == seq(PORT_IDS, _ => 0 as byte);
    assert Records(ServiceType(service), 0) == [];
  }

  lemma OneMoreAsked(fd: int, service: Service, n: nat)
    requires service.service < 256
    ensures var s := Exhausted(fd, service, n);
      Step(s, FromClient(fd, GetClientId(0, ServiceType(service))), service.node).0 == Exhausted(fd, service, n + 1)
  {
    hide FirstFree, Filled, Records, Marked;
    var s, qmiType := Exhausted(fd, service, n), ServiceType(service);
    var clientId, portId := FirstFree(s.clientTable, 1), FirstFree(s.portTable, 1);
    FilledFree(CLIENT_IDS, Min(n, CLIENT_IDS - 1));
    FilledFree(PORT_IDS, Min(n, 255));
    TableAfter(n);
    RecordsMore(qmiType, n);
  }

  lemma TableAfter(n: nat)
    ensures Marked(Filled(CLIENT_IDS, Min(n, CLIENT_IDS - 1)), if n + 1 < CLIENT_IDS then n + 1 else 0) ==
            Filled(CLIENT_IDS, Min(n + 1, CLIENT_IDS - 1))
    ensures Marked(Filled(PORT_IDS, Min(n, 255)), Min(n, 255) + 1) == Filled(PORT_IDS, Min(n + 1, 255))
  {
    if n + 1 < CLIENT_IDS {
      MarkMore(CLIENT_IDS, n);
    }
    if n < 255 {
      MarkMore(PORT_IDS, n);
    } else {
      assert Filled(PORT_IDS, 255)[256] == 0;
      assert Filled(PORT_IDS, 255)[256 := 0] == Filled(PORT_IDS, 255);
    }
  }

  lemma RecordsMore(qmiType: byte, n: nat)
    ensures Records(qmiType, n + 1) ==
            Records(qmiType, n) +
            [Client(qmiType, if n + 1 < CLIENT_IDS then n + 1 else 0, NODE_MYSELF, Min(n, 255) + 1)]
  {
  }

  /** How often a port is in use after `n` requests: once each up to 255, and 256 as often as there were
      requests beyond 255. */
  lemma {:induction false} PortUse(qmiType: byte, n: nat, port: nat)
    ensures multiset(PortIds(Records(qmiType, n)))[port] ==
            if port == 256 then (if n > 255 then n - 255 else 0) else if 1 <= port <= Min(n, 255) then 1 else 0
    decreases n
  {
    hide Records, PortIds;
    if n == 0 {
      RecordsAre(qmiType, 0);
    } else {
      PortUse(qmiType, n - 1, port);
      RecordsMore(qmiType, n - 1);
      var last := Client(qmiType, if n < CLIENT_IDS then n else 0, NODE_MYSELF, Min(n - 1, 255) + 1);
      PortsAppend(Records(qmiType, n - 1), [last]);
      PortOfOne(last);
    }
  }

  lemma RecordsAre(qmiType: byte, n: nat)
    ensures |Records(qmiType, n)| == n
    ensures forall i :: 0 <= i < n ==> Records(qmiType, n)[i].nodeId == NODE_MYSELF
  {
  }

  lemma PortOfOne(client: Client)
    ensures PortIds([client]) == [client.portId]
  {
    assert |PortIds([client])| == 1;
  }

  /** Such a run is full after 239 requests, and falls out of lockstep with the next. From the 256th on
      every further record is given port 256 again, and one packet for that port is delivered once for
      each of them. */
  lemma PortTableLosesIds(fd: int, service: Service, modem: nat, n: nat, payload: seq<byte>)
    requires service.node == modem && service.service < 256
    ensures var s := Run(Asking(fd, service, n), modem);
      (Full(s) <==> n >= 239) && (Lockstep(s) <==> n < 240) &&
      |Step(s, Data(1, 256, 0, 0, false, payload), modem).1| == if n > 255 then n - 255 else 0
  {
    hide Run, Records, Filled, Deliveries, LivePorts, PortIds, Marks, Lockstep;
    var s, clients := Run(Asking(fd, service, n), modem), Records(ServiceType(service), n);
    AskingExhausts(fd, service, modem, n);
    LiveOne(Connection(fd, clients));
    RecordsAre(ServiceType(service), n);
    PortUse(ServiceType(service), n, 256);
    PortDeliveries(fd, clients, 256, payload);
    AskingLockstep(fd, service, n);
    assert |PortIds(clients)| == n;
  }

  lemma AskingLockstep(fd: int, service: Service, n: nat)
    ensures Lockstep(Exhausted(fd, service, n)) <==> n < CLIENT_IDS
  {
    hide LivePorts, PortIds;
    var s, clients := Exhausted(fd, service, n), Records(ServiceType(service), n);
    LiveOne(Connection(fd, clients));
    if n >= CLIENT_IDS {
      assert !Twin(clients[CLIENT_IDS - 1]);
      assert !Twins(s.connections[0].clients);
    } else {
      assert forall i :: 0 <= i < n ==> Twin(clients[i]);
      forall p ensures multiset(PortIds(clients))[p] <= 1 && (p in PortIds(clients) <==> 1 <= p <= n) {
        if p >= 0 {
          PortUse(ServiceType(service), n, p);
          assert p in PortIds(clients) <==> p in multiset(PortIds(clients));
        }
      }
    }
  }

  /** Every record here has node 1, so a packet is delivered once per record with its port. */
  lemma PortDeliveries(fd: int, clients: seq<Client>, port: nat, payload: seq<byte>)
    requires forall i :: 0 <= i < |clients| ==> clients[i].nodeId == NODE_MYSELF
    ensures |Deliveries([Connection(fd, clients)], NODE_MYSELF, port, payload)| == multiset(PortIds(clients))[port]
  {
    CountTo(fd, clients, port, payload);
    assert [Connection(fd, clients)][1..] == [];
  }

  // ---------------------------------------------------------------- releasing

  lemma FreedMarks(table: seq<byte>, before: seq<nat>, after: seq<nat>, id: nat)
    requires Marks(table, before) && Once(before) && id in before
    requires multiset(after) == multiset(before) - multiset{id}
    ensures Marks(Freed(table, id), after) && Once(after)
  {
    assert multiset(before)[id] == 1;
    forall j ensures j in after <==> j in before && j != id {
      assert j in after <==> j in multiset(after);
      assert j in before <==> j in multiset(before);
    }
  }

  lemma Cut(connections: seq<Connection>, k: nat, i: nat)
    requires k < |connections| && i < |connections[k].clients|
    ensures var con := connections[k];
      con.clients[i].portId in LivePorts(connections) &&
      multiset(LivePorts(connections[k := con.(clients := con.clients[..i] + con.clients[i + 1..])])) ==
      multiset(LivePorts(connections)) - multiset{con.clients[i].portId}
  {
    hide LivePorts, PortIds;
    var clients := connections[k].clients;
    var rest := clients[..i] + clients[i + 1..];
    assert clients == clients[..i] + ([clients[i]] + clients[i + 1..]);
    PortsAppend(clients[..i], [clients[i]] + clients[i + 1..]);
    PortsAppend([clients[i]], clients[i + 1..]);
    PortsAppend(clients[..i], clients[i + 1..]);
    assert PortIds([clients[i]]) == [clients[i].portId];
    LiveUpdate(connections, k, connections[k].(clients := rest));
    LiveSplit(connections, k);
    assert PortIds(clients)[i] == clients[i].portId;
  }

  /** Releasing keeps the lockstep and takes exactly the released id out, whatever the client asked for. */
  lemma ReleaseKeepsLockstep(s: State, k: nat, qmiType: byte, clientId: nat)
    requires Lockstep(s) && k < |s.connections|
    ensures var (t, sent) := Release(s, k, qmiType, clientId);
      var i := FindClient(s.connections[k].clients, qmiType, clientId);
      Lockstep(t) &&
      (i == |s.connections[k].clients| ==> t == s) &&
      (i < |s.connections[k].clients| ==>
         clientId in LivePorts(s.connections) && clientId !in LivePorts(t.connections) &&
         multiset(LivePorts(t.connections)) == multiset(LivePorts(s.connections)) - multiset{clientId} &&
         sent == [DelClient(NODE_MYSELF, clientId)])
  {
    hide LivePorts, FindClient;
    var con := s.connections[k];
    var i := FindClient(con.clients, qmiType, clientId);
    if i < |con.clients| {
      var t := Release(s, k, qmiType, clientId).0;
      assert Twins(con.clients);
      assert Twin(con.clients[i]);
      Cut(s.connections, k, i);
      var before, after := LivePorts(s.connections), LivePorts(t.connections);
      FreedMarks(s.clientTable, before, after, clientId);
      FreedMarks(s.portTable, before, after, clientId);
      TwinsUpdate(s.connections, k, con.(clients := con.clients[..i] + con.clients[i + 1..]));
      assert clientId !in multiset(after);
    }
  }

  lemma {:induction false} ReleaseAllKeepsLockstep(s: State, k: nat)
    requires Lockstep(s) && k < |s.connections|
    ensures var t := ReleaseAll(s, k).0;
      Lockstep(t) && t.connections == s.connections[k := s.connections[k].(clients := [])] && t.services == s.services
    decreases |s.connections[k].clients|
  {
    hide LivePorts, Lockstep, Release;
    var clients := s.connections[k].clients;
    if clients != [] {
      ReleaseHead(s, k);
      ReleaseKeepsLockstep(s, k, clients[0].qmiType, clients[0].clientId);
      ReleaseAllKeepsLockstep(Release(s, k, clients[0].qmiType, clients[0].clientId).0, k);
    }
  }

  lemma {:induction false} EmptyConnectionCut(connections: seq<Connection>, k: nat)
    requires k < |connections| && connections[k].clients == []
    ensures LivePorts(connections[..k] + connections[k + 1..]) == LivePorts(connections)
    ensures AllTwins(connections) ==> AllTwins(connections[..k] + connections[k + 1..])
  {
    hide LivePorts;
    LiveSplit(connections, k);
    LiveAppend(connections[..k], connections[k + 1..]);
  }

  /** Closing a connection returns exactly its ids: the others keep theirs. */
  lemma CleanupKeepsLockstep(s: State, fd: int)
    requires Lockstep(s)
    ensures var t := Cleanup(s, fd).0;
      var k := FindConnection(s.connections, fd);
      Lockstep(t) && (k == |s.connections| ==> t == s) &&
      (k < |s.connections| ==>
         t.connections == s.connections[..k] + s.connections[k + 1..] &&
         multiset(LivePorts(t.connections)) ==
         multiset(LivePorts(s.connections)) - multiset(PortIds(s.connections[k].clients)))
  {
    hide FindConnection, LivePorts, PortIds, ReleaseAll, AllTwins;
    var k := FindConnection(s.connections, fd);
    if k < |s.connections| {
      ReleaseAllKeepsLockstep(s, k);
      var u := ReleaseAll(s, k).0;
      EmptyConnectionCut(u.connections, k);
      LiveUpdate(s.connections, k, s.connections[k].(clients := []));
      assert PortIds([]) == [] by {
        assert |PortIds([])| == 0;
      }
      assert u.connections[..k] == s.connections[..k] && u.connections[k + 1..] == s.connections[k + 1..];
    }
  }

  // ---------------------------------------------------------------- every run

  /** The event asks for a client id while 239 records are live. */
  ghost predicate Overflows(s: State, e: Event) {
    Full(s) && e.FromClient? && e.message.GetClientId? &&
    FindConnection(s.connections, e.fd) < |s.connections| && FindService(s.services, e.message.qmiType).Some?
  }

  /** One event keeps the lockstep exactly unless it asks for one id too many. */
  lemma StepKeepsLockstep(s: State, e: Event, modem: nat)
    requires Lockstep(s)
    ensures Lockstep(Step(s, e, modem).0) <==> !Overflows(s, e)
  {
    hide LivePorts, FindConnection, FindService, FindClient, Allocate, Release, Cleanup;
    match e
    case Accept(fd) => AcceptKeepsLockstep(s, fd);
    case Hangup(fd) => CleanupKeepsLockstep(s, fd);
    case ServerChange(_, _) =>
    case Data(_, _, _, _, _, _) =>
    case FromClient(fd, m) =>
      var k := FindConnection(s.connections, fd);
      if k < |s.connections| && m.GetClientId? {
        AllocateKeepsLockstep(s, k, m.qmiType);
      } else if k < |s.connections| && m.ReleaseClientId? {
        ReleaseKeepsLockstep(s, k, m.qmiType, m.clientId as nat);
      }
  }

  lemma AcceptKeepsLockstep(s: State, fd: int)
    requires Lockstep(s)
    ensures Lockstep(s.(connections := s.connections + [Connection(fd, [])]))
  {
    var one := [Connection(fd, [])];
    LiveAppend(s.connections, one);
    assert LivePorts(one) == [] by {
      assert one[1..] == [];
    }
    hide LivePorts;
    assert LivePorts(s.connections + one) == LivePorts(s.connections);
  }

  function Run(events: seq<Event>, modem: nat): State {
    if events == [] then Start() else Step(Run(events[..|events| - 1], modem), events[|events| - 1], modem).0
  }

  /** Nobody asks for an id while 239 records are live. */
  ghost predicate WithinLimit(events: seq<Event>, modem: nat) {
    forall n :: 0 <= n < |events| ==> !Overflows(Run(events[..n], modem), events[n])
  }

  lemma {:induction false} EveryRunKeepsLockstep(events: seq<Event>, modem: nat)
    requires WithinLimit(events, modem)
    ensures Lockstep(Run(events, modem))
    decreases |events|
  {
    hide Lockstep, Step, Overflows;
    if events == [] {
      StartIsLockstep();
    } else {
      var last := |events| - 1;
      forall n | 0 <= n < last ensures !Overflows(Run(events[..last][..n], modem), events[..last][n]) {
        assert events[..last][..n] == events[..n] && events[..last][n] == events[n];
      }
      EveryRunKeepsLockstep(events[..last], modem);
      StepKeepsLockstep(Run(events[..last], modem), events[last], modem);
    }
  }

  lemma StartIsLockstep()
    ensures Lockstep(Start())
  {
  }

  // ---------------------------------------------------------------- routing

  /** How many records a packet reaches is how often its port is in use. */
  lemma {:induction false} DeliveryCount(connections: seq<Connection>, port: nat, payload: seq<byte>)
    requires AllTwins(connections)
    ensures |Deliveries(connections, NODE_MYSELF, port, payload)| == multiset(LivePorts(connections))[port]
  {
    if connections != [] {
      var con := connections[0];
      hide DeliveriesTo, PortIds;
      assert Twins(con.clients);
      CountTo(con.fd, con.clients, port, payload);
      forall k | 0 <= k < |connections[1..]| ensures Twins(connections[1..][k].clients) {
        assert connections[1..][k] == connections[k + 1];
      }
      DeliveryCount(connections[1..], port, payload);
    }
  }

  lemma {:induction false} CountTo(fd: int, clients: seq<Client>, port: nat, payload: seq<byte>)
    requires forall i :: 0 <= i < |clients| ==> clients[i].nodeId == NODE_MYSELF
    ensures |DeliveriesTo(fd, clients, NODE_MYSELF, port, payload)| == multiset(PortIds(clients))[port]
  {
    if clients != [] {
      CountTo(fd, clients[1..], port, payload);
    }
  }

  lemma {:induction false} OwnerIsReached(connections: seq<Connection>, k: nat, i: nat, payload: seq<byte>)
    requires k < |connections| && i < |connections[k].clients|
    ensures var c := connections[k].clients[i];
      ToClient(connections[k].fd, c.qmiType, c.clientId, payload) in
      Deliveries(connections, c.nodeId, c.portId, payload)
  {
    hide DeliveriesTo;
    var c := connections[k].clients[i];
    if k == 0 {
      RecordIsReached(connections[0].fd, connections[0].clients, i, payload);
    } else {
      OwnerIsReached(connections[1..], k - 1, i, payload);
    }
  }

  lemma {:induction false} RecordIsReached(fd: int, clients: seq<Client>, i: nat, payload: seq<byte>)
    requires i < |clients|
    ensures var c := clients[i];
      ToClient(fd, c.qmiType, c.clientId, payload) in DeliveriesTo(fd, clients, c.nodeId, c.portId, payload)
  {
    if i > 0 {
      RecordIsReached(fd, clients[1..], i - 1, payload);
    }
  }

  /** A packet for a port reaches exactly the one record that has it, or nobody. */
  lemma RoutingIsExact(s: State, port: nat, payload: seq<byte>)
    requires Lockstep(s)
    ensures port !in LivePorts(s.connections) ==> Deliveries(s.connections, NODE_MYSELF, port, payload) == []
    ensures forall k, i |
        0 <= k < |s.connections| && 0 <= i < |s.connections[k].clients| && s.connections[k].clients[i].portId == port ::
        Deliveries(s.connections, NODE_MYSELF, port, payload) ==
        [ToClient(s.connections[k].fd, s.connections[k].clients[i].qmiType, port, payload)]
  {
    hide Deliveries, LivePorts;
    var out := Deliveries(s.connections, NODE_MYSELF, port, payload);
    DeliveryCount(s.connections, port, payload);
    assert port in LivePorts(s.connections) <==> port in multiset(LivePorts(s.connections));
    forall k, i | 0 <= k < |s.connections| && 0 <= i < |s.connections[k].clients| &&
                  s.connections[k].clients[i].portId == port
      ensures out == [ToClient(s.connections[k].fd, s.connections[k].clients[i].qmiType, port, payload)]
    {
      assert Twins(s.connections[k].clients);
      assert Twin(s.connections[k].clients[i]);
      OwnerIsReached(s.connections, k, i, payload);
      OneElement(out, ToClient(s.connections[k].fd, s.connections[k].clients[i].qmiType, port, payload));
    }
  }

  lemma OneElement<T>(s: seq<T>, x: T)
    requires x in s && |s| <= 1
    ensures s == [x]
  {
  }

  /** The round trip: what comes back to the address a request left from goes to the client that sent
      the request, with the service type and client id of the request, and to nobody else. */
  lemma ReplyReachesSender(s: State, fd: int, qmiType: byte, clientId: byte, request: seq<byte>,
                           node: nat, port: nat, toNode: nat, toPort: nat, reply: seq<byte>)
    requires Lockstep(s)
    requires Receive(s, fd, Request(qmiType, clientId, request)).1 == [ToModem(node, port, toNode, toPort, request)]
    ensures Deliveries(s.connections, node, port, reply) == [ToClient(fd, qmiType, clientId as nat, reply)]
  {
    hide FindConnection, FindClient, FindService, Deliveries, LivePorts;
    var k := FindConnection(s.connections, fd);
    var clients := s.connections[k].clients;
    var i := FindClient(clients, qmiType, clientId as nat);
    assert Twins(clients);
    assert Twin(clients[i]);
    RoutingIsExact(s, port, reply);
  }

  /** A granted id works: a request under it leaves from (1, id), if its service is not numbered 0. */
  lemma GrantedIdRoutes(s: State, fd: int, tid: nat, qmiType: byte, request: seq<byte>)
    requires Lockstep(s) && FindConnection(s.connections, fd) < |s.connections|
    requires FindService(s.services, qmiType).Some? && !Full(s) && qmiType != 0
    ensures var (t, out) := Receive(s, fd, GetClientId(tid, qmiType));
      var srv := FindService(s.services, qmiType).value;
      exists id: byte ::
        out == [Granted(fd, tid, qmiType, id as nat, true)] &&
        Receive(t, fd, Request(qmiType, id, request)).1 ==
        [ToModem(NODE_MYSELF, id as nat, srv.node, srv.port, request)]
  {
    hide LivePorts, FirstFree, FindClient, Lockstep, FindConnection, FindService;
    var k := FindConnection(s.connections, fd);
    AllocateKeepsLockstep(s, k, qmiType);
    TablesAgree(s);
    var (t, n) := Allocate(s, k, qmiType);
    var id := n as byte;
    SameConnection(s.connections, k, fd, t.connections[k]);
    var clients := t.connections[k].clients;
    assert clients[|clients| - 1] == Client(qmiType, n, NODE_MYSELF, n);
    var i := FindClient(clients, qmiType, n);
    assert i < |clients|;
    assert Twin(clients[i]) by {
      assert Lockstep(t);
      TwinAt(t, k, i);
    }
    assert Receive(t, fd, Request(qmiType, id, request)).1 == Forwarded(t, k, qmiType, id, request);
  }

  lemma TwinAt(t: State, k: nat, i: nat)
    requires Lockstep(t) && k < |t.connections| && i < |t.connections[k].clients|
    ensures Twin(t.connections[k].clients[i])
  {
    assert Twins(t.connections[k].clients);
  }

  lemma {:induction false} SameConnection(connections: seq<Connection>, k: nat, fd: int, con: Connection)
    requires k == FindConnection(connections, fd) < |connections| && con.fd == connections[k].fd
    ensures FindConnection(connections[k := con], fd) == k
  {
    if k > 0 {
      SameConnection(connections[1..], k - 1, fd, con);
      assert connections[k := con][1..] == connections[1..][k - 1 := con];
    }
  }

  /** After a release nothing is delivered to the freed address any more. */
  lemma NothingAfterRelease(s: State, k: nat, qmiType: byte, clientId: nat, payload: seq<byte>)
    requires Lockstep(s) && k < |s.connections| && Release(s, k, qmiType, clientId).1 != []
    ensures Deliveries(Release(s, k, qmiType, clientId).0.connections, NODE_MYSELF, clientId, payload) == []
  {
    hide FindClient, Deliveries, LivePorts, Lockstep;
    ReleaseKeepsLockstep(s, k, qmiType, clientId);
    RoutingIsExact(Release(s, k, qmiType, clientId).0, clientId, payload);
  }

  /** And this stays so: a free port comes into use only by being granted. */
  lemma FreeUntilGranted(s: State, e: Event, modem: nat, port: nat)
    requires Lockstep(s) && !Overflows(s, e) && port !in LivePorts(s.connections)
    ensures var (t, out) := Step(s, e, modem);
      port in LivePorts(t.connections) ==>
        exists fd, tid, qmiType :: out == [Granted(fd, tid, qmiType, port, true)]
  {
    hide LivePorts, FindConnection, FindService, FindClient, Allocate, Release, Cleanup, Lockstep, PortIds;
    var t := Step(s, e, modem).0;
    var before, after := LivePorts(s.connections), LivePorts(t.connections);
    assert port in before <==> port in multiset(before);
    assert port in after <==> port in multiset(after);
    match e
    case Accept(fd) => AcceptAddsNone(s.connections, fd);
    case Hangup(fd) => CleanupKeepsLockstep(s, fd);
    case ServerChange(_, _) =>
    case Data(_, _, _, _, _, _) =>
    case FromClient(fd, m) =>
      var k := FindConnection(s.connections, fd);
      if k < |s.connections| && m.GetClientId? {
        AllocateKeepsLockstep(s, k, m.qmiType);
        if FindService(s.services, m.qmiType).Some? && port in after {
          assert Step(s, e, modem).1 == [Granted(fd, m.tid, m.qmiType, port, true)];
        }
      } else if k < |s.connections| && m.ReleaseClientId? {
        ReleaseKeepsLockstep(s, k, m.qmiType, m.clientId as nat);
      }
  }

  /** No answer in the run from `events` on to `all` grants this port. */
  ghost predicate NotGranted(all: seq<Event>, from: nat, modem: nat, port: nat) {
    forall n :: from <= n < |all| ==> !Grants(Step(Run(all[..n], modem), all[n], modem).1, port)
  }

  ghost predicate Grants(out: seq<Output>, port: nat) {
    exists fd, tid, qmiType :: out == [Granted(fd, tid, qmiType, port, true)]
  }

  lemma WithinPrefix(events: seq<Event>, k: nat, modem: nat)
    requires WithinLimit(events, modem) && k <= |events|
    ensures WithinLimit(events[..k], modem)
  {
    hide Run, Overflows;
    forall n | 0 <= n < k ensures !Overflows(Run(events[..k][..n], modem), events[..k][n]) {
      assert events[..k][..n] == events[..n];
    }
  }

  /** In every run, a port that is free stays silent until it is granted again. */
  lemma {:induction false} SilentUntilGranted(all: seq<Event>, from: nat, modem: nat, port: nat, payload: seq<byte>)
    requires WithinLimit(all, modem) && from <= |all| && NotGranted(all, from, modem, port)
    requires port !in LivePorts(Run(all[..from], modem).connections)
    ensures port !in LivePorts(Run(all, modem).connections)
    ensures Deliveries(Run(all, modem).connections, NODE_MYSELF, port, payload) == []
    decreases |all|
  {
    hide Run, LivePorts, Deliveries, Step, Overflows, Lockstep;
    EveryRunKeepsLockstep(all, modem);
    if from < |all| {
      var n := |all| - 1;
      var past := all[..n];
      WithinPrefix(all, n, modem);
      forall k | from <= k < n ensures !Grants(Step(Run(past[..k], modem), past[k], modem).1, port) {
        assert past[..k] == all[..k];
      }
      assert past[..from] == all[..from];
      SilentUntilGranted(past, from, modem, port, payload);
      EveryRunKeepsLockstep(past, modem);
      FreeUntilGranted(Run(past, modem), all[n], modem, port);
      RunStep(all, modem);
    } else {
      assert all[..from] == all;
    }
    RoutingIsExact(Run(all, modem), port, payload);
  }

  /** A released id, in particular, stays silent until it is granted again. */
  lemma SilentAfterRelease(all: seq<Event>, n: nat, fd: int, tid: nat, qmiType: byte, clientId: byte, modem: nat,
                           payload: seq<byte>)
    requires WithinLimit(all, modem) && n < |all| && all[n] == FromClient(fd, ReleaseClientId(tid, qmiType, clientId))
    requires DelClient(NODE_MYSELF, clientId as nat) in Step(Run(all[..n], modem), all[n], modem).1
    requires NotGranted(all, n + 1, modem, clientId as nat)
    ensures Deliveries(Run(all, modem).connections, NODE_MYSELF, clientId as nat, payload) == []
  {
    hide Run, LivePorts, Deliveries, FindConnection, FindClient, Lockstep, NotGranted;
    WithinPrefix(all, n, modem);
    EveryRunKeepsLockstep(all[..n], modem);
    var s := Run(all[..n], modem);
    ReleaseKeepsLockstep(s, FindConnection(s.connections, fd), qmiType, clientId as nat);
    RunStep(all[..n + 1], modem);
    assert all[..n + 1][..n] == all[..n];
    SilentUntilGranted(all, n + 1, modem, clientId as nat, payload);
  }

  /** The record a client was granted. */
  ghost predicate Holds(connections: seq<Connection>, fd: int, c: Client) {
    exists k, i :: 0 <= k < |connections| && connections[k].fd == fd && 0 <= i < |connections[k].clients| &&
      connections[k].clients[i] == c
  }

  /** A record stays until its connection closes or its client releases the id. */
  predicate Ends(e: Event, fd: int, c: Client) {
    e == Hangup(fd) ||
    (e.FromClient? && e.fd == fd && e.message.ReleaseClientId? &&
     e.message.qmiType == c.qmiType && e.message.clientId as nat == c.clientId)
  }

  lemma StepKeepsRecord(s: State, e: Event, modem: nat, fd: int, c: Client)
    requires Lockstep(s) && Holds(s.connections, fd, c) && !Ends(e, fd, c)
    ensures Holds(Step(s, e, modem).0.connections, fd, c)
  {
    hide Receive, Cleanup, Lockstep, Deliveries;
    var k, i :| 0 <= k < |s.connections| && s.connections[k].fd == fd && 0 <= i < |s.connections[k].clients| &&
      s.connections[k].clients[i] == c;
    match e
    case Accept(f) => assert (s.connections + [Connection(f, [])])[k] == s.connections[k];
    case Hangup(f) => HangupKeepsRecord(s, f, k, i);
    case ServerChange(_, _) =>
    case Data(_, _, _, _, _, _) =>
    case FromClient(f, m) => ReceiveKeepsRecord(s, f, m, k, i);
  }

  lemma HoldsAt(connections: seq<Connection>, k: nat, i: nat)
    requires k < |connections| && i < |connections[k].clients|
    ensures Holds(connections, connections[k].fd, connections[k].clients[i])
  {
  }

  lemma CleanupCuts(s: State, fd: int)
    requires Lockstep(s)
    ensures var k := FindConnection(s.connections, fd);
      Cleanup(s, fd).0.connections ==
      if k < |s.connections| then s.connections[..k] + s.connections[k + 1..] else s.connections
  {
    hide Cleanup, Lockstep, FindConnection, LivePorts, PortIds;
    CleanupKeepsLockstep(s, fd);
  }

  lemma HangupKeepsRecord(s: State, f: int, k: nat, i: nat)
    requires Lockstep(s) && k < |s.connections| && i < |s.connections[k].clients| && s.connections[k].fd != f
    ensures Holds(Cleanup(s, f).0.connections, s.connections[k].fd, s.connections[k].clients[i])
  {
    hide Cleanup, Lockstep, FindConnection, Holds;
    CleanupCuts(s, f);
    var gone, t := FindConnection(s.connections, f), Cleanup(s, f).0;
    if gone < |s.connections| {
      var j := if k < gone then k else k - 1;
      assert t.connections[j] == s.connections[k];
      HoldsAt(t.connections, j, i);
    } else {
      HoldsAt(t.connections, k, i);
    }
  }

  lemma ReceiveKeepsRecord(s: State, f: int, m: Message, k: nat, i: nat)
    requires k < |s.connections| && i < |s.connections[k].clients|
    requires !Ends(FromClient(f, m), s.connections[k].fd, s.connections[k].clients[i])
    ensures Holds(Receive(s, f, m).0.connections, s.connections[k].fd, s.connections[k].clients[i])
  {
    hide FindConnection, FindService, FirstFree, Release, Forwarded;
    var at, t := FindConnection(s.connections, f), Receive(s, f, m).0;
    if at < |s.connections| && m.ReleaseClientId? {
      ReleaseKeepsRecord(s, at, m.qmiType, m.clientId as nat, k, i);
    } else {
      assert t.connections[k].fd == s.connections[k].fd && t.connections[k].clients[i] == s.connections[k].clients[i];
    }
  }

  lemma ReleaseKeepsRecord(s: State, at: nat, qmiType: byte, clientId: nat, k: nat, i: nat)
    requires at < |s.connections| && k < |s.connections| && i < |s.connections[k].clients|
    requires var c := s.connections[k].clients[i];
      at == k ==> !(c.qmiType == qmiType && c.clientId == clientId)
    ensures Holds(Release(s, at, qmiType, clientId).0.connections, s.connections[k].fd, s.connections[k].clients[i])
  {
    hide FindClient;
    var t := Release(s, at, qmiType, clientId).0;
    var j := FindClient(s.connections[at].clients, qmiType, clientId);
    if at == k && j < |s.connections[at].clients| {
      assert t.connections[k].clients[if i < j then i else i - 1] == s.connections[k].clients[i];
    } else {
      assert t.connections[k].clients[i] == s.connections[k].clients[i];
    }
  }

  lemma {:induction false} RecordStays(all: seq<Event>, from: nat, modem: nat, fd: int, c: Client)
    requires WithinLimit(all, modem) && from <= |all| && Holds(Run(all[..from], modem).connections, fd, c)
    requires forall n :: from <= n < |all| ==> !Ends(all[n], fd, c)
    ensures Holds(Run(all, modem).connections, fd, c)
    decreases |all|
  {
    hide Run, Step, Overflows, Lockstep, Holds, Ends;
    if from < |all| {
      var n := |all| - 1;
      var past := all[..n];
      WithinPrefix(all, n, modem);
      assert past[..from] == all[..from];
      RecordStays(past, from, modem, fd, c);
      EveryRunKeepsLockstep(past, modem);
      StepKeepsRecord(Run(past, modem), all[n], modem, fd, c);
      RunStep(all, modem);
    } else {
      assert all[..from] == all;
    }
  }

  /** The round trip over a run: a reply to the address a request left from reaches its sender, and nobody
      else, after any further events, unless the sender hung up or released the id in the meantime. */
  lemma LateReplyReachesSender(all: seq<Event>, from: nat, modem: nat, fd: int, qmiType: byte, clientId: byte,
      request: seq<byte>, node: nat, port: nat, toNode: nat, toPort: nat, reply: seq<byte>)
    requires WithinLimit(all, modem) && from <= |all|
    requires Receive(Run(all[..from], modem), fd, Request(qmiType, clientId, request)).1 ==
             [ToModem(node, port, toNode, toPort, request)]
    requires forall n :: from <= n < |all| ==> !Ends(all[n], fd, Client(qmiType, clientId as nat, node, port))
    ensures Deliveries(Run(all, modem).connections, node, port, reply) ==
            [ToClient(fd, qmiType, clientId as nat, reply)]
  {
    hide Run, Overflows, FindConnection, FindClient, FindService, Deliveries, LivePorts, Ends;
    var s, c := Run(all[..from], modem), Client(qmiType, clientId as nat, node, port);
    WithinPrefix(all, from, modem);
    EveryRunKeepsLockstep(all[..from], modem);
    EveryRunKeepsLockstep(all, modem);
    var k := FindConnection(s.connections, fd);
    var i := FindClient(s.connections[k].clients, qmiType, clientId as nat);
    assert s.connections[k].clients[i] == c;
    TwinAt(s, k, i);
    RecordStays(all, from, modem, fd, c);
    var t := Run(all, modem);
    var k', i' :| 0 <= k' < |t.connections| && t.connections[k'].fd == fd && 0 <= i' < |t.connections[k'].clients| &&
      t.connections[k'].clients[i'] == c;
    RoutingIsExact(t, port, reply);
  }

  lemma AcceptAddsNone(connections: seq<Connection>, fd: int)
    ensures LivePorts(connections + [Connection(fd, [])]) == LivePorts(connections)
  {
    var one := [Connection(fd, [])];
    LiveAppend(connections, one);
    assert one[1..] == [];
  }
}
