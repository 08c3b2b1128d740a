/** quectel_cm_5G/src/quectel-qrtr-proxy.c: many QMI clients share one modem over QRTR. Each granted
    client id is paired with a port, out of two tables that are searched separately; requests leave from
    the port and packets addressed to the port come back to the client.

    The functions say what one event does to the state and what it sends; the class is the code over the
    two tables and the lists (QList shows what the lists are); the lemmas are about every run. */
module QrtrProxy {
  import opened Bytes

  datatype Client = Client(qmiType: byte, clientId: nat, nodeId: nat, portId: nat)

  datatype Connection = Connection(fd: int, clients: seq<Client>)

  datatype Service = Service(service: nat, node: nat, port: nat)

  datatype State = State(clientTable: seq<byte>, portTable: seq<byte>, connections: seq<Connection>,
                         services: seq<Service>)

  /** What a client sends. `tid` is the transaction id of a control message. */
  datatype Message =
    | Sync
    | GetClientId(tid: nat, qmiType: byte)
    | ReleaseClientId(tid: nat, qmiType: byte, clientId: byte)
    | GetVersion(tid: nat)
    | OtherControl
    | Request(qmiType: byte, clientId: byte, payload: seq<byte>)

  datatype Event =
    | Accept(fd: int)
    | Hangup(fd: int)
    | FromClient(fd: int, message: Message)
    | ServerChange(added: bool, service: Service)
    | Data(dstNode: nat, dstPort: nat, srcNode: nat, srcPort: nat, confirm: bool, payload: seq<byte>)

  datatype Output =
    | ToClient(fd: int, qmiType: byte, clientId: nat, payload: seq<byte>)
    | Granted(fd: int, tid: nat, qmiType: byte, clientId: nat, ok: bool)
    | Released(fd: int, tid: nat, qmiType: byte, released: byte)
    | Version(fd: int, tid: nat)
    | ToModem(fromNode: nat, fromPort: nat, node: nat, port: nat, payload: seq<byte>)
    | DelClient(node: nat, port: nat)
    | ResumeTx(fromNode: nat, fromPort: nat, node: nat, port: nat)

  /** `sizeof(client_bitmap)` and `sizeof(port_bitmap)`: the second is larger, but holds bytes as well. */
  const CLIENT_IDS: nat := 0xf0
  const PORT_IDS: nat := 0xff0
  const NODE_MYSELF: nat := 1

  // ---------------------------------------------------------------- the tables

  /** The first id from `from` on that a table does not mark, or 0. */
  function FirstFree(table: seq<byte>, from: nat): (id: nat)
    requires from > 0
    ensures id != 0 ==> from <= id < |table| && table[id] == 0 && forall j :: from <= j < id ==> table[j] != 0
    ensures id == 0 ==> forall j :: from <= j < |table| ==> table[j] != 0
    decreases |table| - from
  {
    if from >= |table| then 0 else if table[from] == 0 then from else FirstFree(table, from + 1)
  }

  /** The id is stored in a byte. */
  function Marked(table: seq<byte>, id: nat): seq<byte> {
    if 0 < id < |table| then table[id := (id % 256) as byte] else table
  }

  function Freed(table: seq<byte>, id: nat): seq<byte> {
    if id < |table| && table[id] as nat == id then table[id := 0] else table
  }

  // ---------------------------------------------------------------- searching

  /** The position of the first connection with this descriptor, or the number of connections. */
  function FindConnection(connections: seq<Connection>, fd: int): (k: nat)
    ensures k <= |connections| && (k < |connections| ==> connections[k].fd == fd)
    ensures forall j :: 0 <= j < k ==> connections[j].fd != fd
  {
    if connections == [] || connections[0].fd == fd then 0 else 1 + FindConnection(connections[1..], fd)
  }

  function FindClient(clients: seq<Client>, qmiType: byte, clientId: nat): (i: nat)
    ensures i <= |clients| && (i < |clients| ==> clients[i].qmiType == qmiType && clients[i].clientId == clientId)
    ensures forall j :: 0 <= j < i ==> !(clients[j].qmiType == qmiType && clients[j].clientId == clientId)
  {
    if clients == [] || (clients[0].qmiType == qmiType && clients[0].clientId == clientId) then 0
    else 1 + FindClient(clients[1..], qmiType, clientId)
  }

  /** `find_qrtr_service`. */
  function FindService(services: seq<Service>, qmiType: byte): (r: Option<Service>)
    ensures r.Some? ==> r.value in services && r.value.service == qmiType as nat
    ensures r.None? ==> forall s :: s in services ==> s.service != qmiType as nat
  {
    if services == [] then None
    else if services[0].service == qmiType as nat then Some(services[0])
    else FindService(services[1..], qmiType)
  }

  // ---------------------------------------------------------------- one event

  /** `alloc_qrtr_client_id`: the record is appended even when no client id was free. */
  function Allocate(s: State, k: nat, qmiType: byte): (r: (State, nat))
    requires k < |s.connections|
  {
    var clientId := FirstFree(s.clientTable, 1);
    var portId := FirstFree(s.portTable, 1);
    var con := s.connections[k];
    var client := Client(qmiType, clientId, NODE_MYSELF, portId);
    (State(Marked(s.clientTable, clientId), Marked(s.portTable, portId),
           s.connections[k := con.(clients := con.clients + [client])], s.services), clientId)
  }

  /** `release_qrtr_client_id`. */
  function Release(s: State, k: nat, qmiType: byte, clientId: nat): (r: (State, seq<Output>))
    requires k < |s.connections|
    ensures |r.0.connections| == |s.connections|
  {
    var con := s.connections[k];
    var i := FindClient(con.clients, qmiType, clientId);
    if i == |con.clients| then (s, [])
    else
      var client := con.clients[i];
      (State(Freed(s.clientTable, client.clientId), Freed(s.portTable, client.portId),
             s.connections[k := con.(clients := con.clients[..i] + con.clients[i + 1..])], s.services),
       [DelClient(client.nodeId, client.portId)])
  }

  /** The loop of `cleanup_qrtr_connection`: release the head until none is left. */
  function ReleaseAll(s: State, k: nat): (r: (State, seq<Output>))
    requires k < |s.connections|
    ensures |r.0.connections| == |s.connections|
    decreases |s.connections[k].clients|
  {
    var clients := s.connections[k].clients;
    if clients == [] then (s, [])
    else
      var (t, sent) := Release(s, k, clients[0].qmiType, clients[0].clientId);
      var (u, more) := ReleaseAll(t, k);
      (u, sent + more)
  }

  function Cleanup(s: State, fd: int): (r: (State, seq<Output>)) {
    var k := FindConnection(s.connections, fd);
    if k == |s.connections| then (s, [])
    else
      var (t, sent) := ReleaseAll(s, k);
      (t.(connections := t.connections[..k] + t.connections[k + 1..]), sent)
  }

  /** A packet for (node, port) goes to every client record with that address. */
  function DeliveriesTo(fd: int, clients: seq<Client>, node: nat, port: nat, payload: seq<byte>): seq<Output> {
    if clients == [] then []
    else (if clients[0].nodeId == node && clients[0].portId == port
          then [ToClient(fd, clients[0].qmiType, clients[0].clientId, payload)] else []) +
         DeliveriesTo(fd, clients[1..], node, port, payload)
  }

  function Deliveries(connections: seq<Connection>, node: nat, port: nat, payload: seq<byte>): seq<Output> {
    if connections == [] then []
    else DeliveriesTo(connections[0].fd, connections[0].clients, node, port, payload) +
         Deliveries(connections[1..], node, port, payload)
  }

  /** What a request of connection `k` sends to the modem. */
  function Forwarded(s: State, k: nat, qmiType: byte, clientId: byte, payload: seq<byte>): seq<Output>
    requires k < |s.connections|
  {
    var clients := s.connections[k].clients;
    var i := FindClient(clients, qmiType, clientId as nat);
    if i == |clients| then []
    else
      var srv := FindService(s.services, qmiType);
      if srv.Some? && srv.value.service != 0
      then [ToModem(clients[i].nodeId, clients[i].portId, srv.value.node, srv.value.port, payload)]
      else []
  }

  /** `recv_qmi_from_client`. */
  function Receive(s: State, fd: int, m: Message): (r: (State, seq<Output>)) {
    var k := FindConnection(s.connections, fd);
    if k == |s.connections| then (s, [])
    else match m
      case Sync => (s, [])
      case OtherControl => (s, [])
      case GetVersion(tid) => (s, [Version(fd, tid)])
      case GetClientId(tid, qmiType) =>
        if FindService(s.services, qmiType).None? then (s, [Granted(fd, tid, qmiType, 0, false)])
        else
          var (t, clientId) := Allocate(s, k, qmiType);
          (t, [Granted(fd, tid, qmiType, clientId, clientId != 0)])
      case ReleaseClientId(tid, qmiType, clientId) =>
        var (t, sent) := Release(s, k, qmiType, clientId as nat);
        (t, sent + [Released(fd, tid, qmiType, clientId)])
      case Request(qmiType, clientId, payload) => (s, Forwarded(s, k, qmiType, clientId, payload))
  }

  function Step(s: State, e: Event, modem: nat): (r: (State, seq<Output>)) {
    match e
    case Accept(fd) => (s.(connections := s.connections + [Connection(fd, [])]), [])
    case Hangup(fd) => Cleanup(s, fd)
    case FromClient(fd, m) => Receive(s, fd, m)
    case ServerChange(added, service) =>
      (if added && service.node == modem then s.(services := s.services + [service]) else s, [])
    case Data(dstNode, dstPort, srcNode, srcPort, confirm, payload) =>
      (s, Deliveries(s.connections, dstNode, dstPort, payload) +
          if confirm then [ResumeTx(dstNode, dstPort, srcNode, srcPort)] else [])
  }

  function Start(): State {
    State(seq(CLIENT_IDS, _ => 0), seq(PORT_IDS, _ => 0), [], [])
  }

  // ---------------------------------------------------------------- the code

  class Proxy {
    const clientBitmap: array<byte>
    const portBitmap: array<byte>
    const nodeModem: nat
    var connections: seq<Connection>
    var services: seq<Service>
    /** Everything sent so far, in order. */
    var sent: seq<Output>

    constructor (modem: nat)
      ensures Valid() && Current() == Start() && sent == [] && nodeModem == modem
      ensures fresh(clientBitmap) && fresh(portBitmap)
    {
      nodeModem := modem;
      clientBitmap := new byte[CLIENT_IDS](_ => 0);
      portBitmap := new byte[PORT_IDS](_ => 0);
      connections, services, sent := [], [], [];
    }

    ghost predicate Valid() {
      clientBitmap.Length == CLIENT_IDS && portBitmap.Length == PORT_IDS && clientBitmap != portBitmap
    }

    ghost function Current(): State
      reads this, clientBitmap, portBitmap
    {
      State(clientBitmap[..], portBitmap[..], connections, services)
    }

    /** `alloc_client_id` and `alloc_port_id`, which differ in the table only. */
    method AllocId(table: array<byte>) returns (id: nat)
      modifies table
      ensures id == FirstFree(old(table[..]), 1)
      ensures table[..] == Marked(old(table[..]), id)
    {
      id := 1;
      while id < table.Length
        invariant 1 <= id && (id <= table.Length || table.Length == 0)
        invariant FirstFree(table[..], 1) == FirstFree(table[..], id)
        invariant table[..] == old(table[..])
      {
        if table[id] == 0 {
          table[id] := (id % 256) as byte;
          return;
        }
        id := id + 1;
      }
      return 0;
    }

    /** `free_client_id` and `free_port_id`. */
    method FreeId(table: array<byte>, id: nat)
      modifies table
      ensures table[..] == Freed(old(table[..]), id)
    {
      if id < table.Length && table[id] as nat == id {
        table[id] := 0;
      }
    }

    /** The walks over the lists. */
    method SeekConnection(fd: int) returns (k: nat)
      ensures k == FindConnection(connections, fd)
    {
      k := 0;
      while k < |connections| && connections[k].fd != fd
        invariant k <= |connections| && FindConnection(connections, fd) == k + FindConnection(connections[k..], fd)
      {
        assert connections[k..][1..] == connections[k + 1..];
        k := k + 1;
      }
    }

    method SeekClient(clients: seq<Client>, qmiType: byte, clientId: nat) returns (i: nat)
      ensures i == FindClient(clients, qmiType, clientId)
    {
      i := 0;
      while i < |clients| && !(clients[i].qmiType == qmiType && clients[i].clientId == clientId)
        invariant i <= |clients|
        invariant FindClient(clients, qmiType, clientId) == i + FindClient(clients[i..], qmiType, clientId)
      {
        assert clients[i..][1..] == clients[i + 1..];
        i := i + 1;
      }
    }

    method SeekService(qmiType: byte) returns (r: Option<Service>)
      ensures r == FindService(services, qmiType)
    {
      assert services[0..] == services;
      for i := 0 to |services|
        invariant FindService(services, qmiType) == FindService(services[i..], qmiType)
      {
        if services[i].service == qmiType as nat {
          return Some(services[i]);
        }
        assert services[i..][1..] == services[i + 1..];
      }
      return None;
    }

    method AllocateClient(k: nat, qmiType: byte) returns (clientId: nat)
      requires Valid() && k < |connections|
      modifies `connections, clientBitmap, portBitmap
      ensures (Current(), clientId) == Allocate(old(Current()), k, qmiType)
    {
      clientId := AllocId(clientBitmap);
      var portId := AllocId(portBitmap);
      var con := connections[k];
      var client := Client(qmiType, clientId, NODE_MYSELF, portId);
      connections := connections[k := con.(clients := con.clients + [client])];
    }

    method ReleaseClient(k: nat, qmiType: byte, clientId: nat)
      requires Valid() && k < |connections|
      modifies `connections, `sent, clientBitmap, portBitmap
      ensures Current() == Release(old(Current()), k, qmiType, clientId).0
      ensures sent == old(sent) + Release(old(Current()), k, qmiType, clientId).1
    {
      hide FindClient;
      var con := connections[k];
      var i := SeekClient(con.clients, qmiType, clientId);
      if i < |con.clients| {
        var client := con.clients[i];
        sent := sent + [DelClient(client.nodeId, client.portId)];
        FreeId(clientBitmap, client.clientId);
        FreeId(portBitmap, client.portId);
        connections := connections[k := con.(clients := con.clients[..i] + con.clients[i + 1..])];
      }
    }

    method CleanupConnection(fd: int)
      requires Valid()
      modifies `connections, `sent, clientBitmap, portBitmap
      ensures Current() == Cleanup(old(Current()), fd).0
      ensures sent == old(sent) + Cleanup(old(Current()), fd).1
    {
      hide FindConnection, Release;
      var k := SeekConnection(fd);
      if k < |connections| {
        ghost var all := ReleaseAll(Current(), k);
        ghost var before := sent;
        while connections[k].clients != []
          invariant k < |connections| == |old(connections)| && services == old(services)
          invariant ReleaseAll(Current(), k).0 == all.0
          invariant sent + ReleaseAll(Current(), k).1 == before + all.1
          decreases |connections[k].clients|
        {
          var head := connections[k].clients[0];
          ghost var s := Current();
          ReleaseHead(s, k);
          ReleaseClient(k, head.qmiType, head.clientId);
        }
        connections := connections[..k] + connections[k + 1..];
      }
    }

    method AcceptConnection(fd: int)
      modifies `connections
      ensures (Current(), []) == Step(old(Current()), Accept(fd), nodeModem)
    {
      connections := connections + [Connection(fd, [])];
    }

    /** `handle_server_change`. The node that a DEL_SERVER unlinks is the one just made for it, which is in
        no list: the list of services does not change. */
    method HandleServerChange(added: bool, service: Service)
      modifies `services
      ensures (Current(), []) == Step(old(Current()), ServerChange(added, service), nodeModem)
    {
      if service.node != nodeModem {
        return;
      }
      if added {
        services := services + [service];
      }
    }

    /** `recv_qrtr_from_dev` on a DATA packet. */
    method ReceiveFromDevice(dstNode: nat, dstPort: nat, srcNode: nat, srcPort: nat, confirm: bool, payload: seq<byte>)
      modifies `sent
      ensures sent == old(sent) +
                Step(Current(), Data(dstNode, dstPort, srcNode, srcPort, confirm, payload), nodeModem).1
    {
      ghost var all := Deliveries(connections, dstNode, dstPort, payload);
      assert connections[0..] == connections;
      for k := 0 to |connections|
        invariant sent + Deliveries(connections[k..], dstNode, dstPort, payload) == old(sent) + all
      {
        var con := connections[k];
        ghost var rest := Deliveries(connections[k + 1..], dstNode, dstPort, payload);
        assert connections[k..][1..] == connections[k + 1..];
        DeliverTo(con, dstNode, dstPort, payload);
      }
      assert sent + [] == sent;
      if confirm {
        sent := sent + [ResumeTx(dstNode, dstPort, srcNode, srcPort)];
      }
    }

    /** The inner loop. */
    method DeliverTo(con: Connection, dstNode: nat, dstPort: nat, payload: seq<byte>)
      modifies `sent
      ensures sent == old(sent) + DeliveriesTo(con.fd, con.clients, dstNode, dstPort, payload)
    {
      assert con.clients[0..] == con.clients;
      for i := 0 to |con.clients|
        invariant sent + DeliveriesTo(con.fd, con.clients[i..], dstNode, dstPort, payload) ==
                  old(sent) + DeliveriesTo(con.fd, con.clients, dstNode, dstPort, payload)
      {
        var client := con.clients[i];
        assert con.clients[i..][1..] == con.clients[i + 1..];
        if client.nodeId == dstNode && client.portId == dstPort {
          sent := sent + [ToClient(con.fd, client.qmiType, client.clientId, payload)];
        }
      }
      assert sent + [] == sent;
    }

    /** `recv_qmi_from_client`. */
    method ReceiveFromClient(fd: int, m: Message)
      requires Valid()
      modifies `connections, `sent, clientBitmap, portBitmap
      ensures Current() == Receive(old(Current()), fd, m).0
      ensures sent == old(sent) + Receive(old(Current()), fd, m).1
    {
      hide FindConnection, FindClient, FindService, Allocate, Release;
      var k := SeekConnection(fd);
      if k == |connections| {
        return;
      }
      match m
      case Sync =>
      case OtherControl =>
      case GetVersion(tid) =>
        sent := sent + [Version(fd, tid)];
      case GetClientId(tid, qmiType) =>
        var clientId := 0;
        var service := SeekService(qmiType);
        if service.Some? {
          clientId := AllocateClient(k, qmiType);
        }
        sent := sent + [Granted(fd, tid, qmiType, clientId, clientId != 0)];
      case ReleaseClientId(tid, qmiType, clientId) =>
        ReleaseClient(k, qmiType, clientId as nat);
        sent := sent + [Released(fd, tid, qmiType, clientId)];
      case Request(qmiType, clientId, payload) =>
        var clients := connections[k].clients;
        var i := SeekClient(clients, qmiType, clientId as nat);
        if i < |clients| {
          var srv := SeekService(qmiType);
          if srv.Some? && srv.value.service != 0 {
            sent := sent + [ToModem(clients[i].nodeId, clients[i].portId, srv.value.node, srv.value.port, payload)];
          }
        }
    }
  }

  lemma ReleaseHead(s: State, k: nat)
    requires k < |s.connections| && s.connections[k].clients != []
    ensures var clients := s.connections[k].clients;
      var (t, sent) := Release(s, k, clients[0].qmiType, clients[0].clientId);
      t.connections == s.connections[k := s.connections[k].(clients := clients[1..])] && t.services == s.services &&
      ReleaseAll(s, k) == (ReleaseAll(t, k).0, sent + ReleaseAll(t, k).1)
  {
    var clients := s.connections[k].clients;
    assert clients[..0] + clients[1..] == clients[1..];
    assert FindClient(clients, clients[0].qmiType, clients[0].clientId) == 0;
    hide FindClient, Freed;
  }
}
