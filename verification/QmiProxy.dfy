/** quectel_cm_5G/src/quectel-qmi-proxy.c: many clients share one QMI control channel. Control requests
    queue up; the head of the queue is the one request the modem is working on.

    The functions say what one event does and sends, once the proxy serves clients; the class is the
    code. QmiProxyLaws is about every run. */
module QmiProxy {
  import opened Bytes

  datatype Client = Client(qmiType: byte, clientId: byte)

  datatype Connection = Connection(fd: int, clients: seq<Client>)

  /** A control request in the queue, and who sent it. */
  datatype Queued = Queued(fd: int, body: seq<byte>)

  datatype State = State(queue: seq<Queued>, connections: seq<Connection>)

  datatype Kind = GetClientIdResp | ReleaseClientIdResp | RevokeClientIdInd | OtherResp

  datatype ClientPacket =
    | Control(sync: bool, body: seq<byte>)
    | ToService(qmiType: byte, clientId: byte, payload: seq<byte>)

  /** `Response` is a control message with the response flag; any other control message is `Unsolicited`. */
  datatype ModemPacket =
    | Response(kind: Kind, result: nat, error: nat, client: Client)
    | Unsolicited
    | FromService(qmiType: byte, clientId: byte, payload: seq<byte>)

  datatype Event =
    | Accept(fd: int)
    | Hangup(fd: int)
    | FromClient(fd: int, packet: ClientPacket)
    | FromModem(answer: ModemPacket)

  datatype Output =
    | Forward(request: Queued)
    | Pass(packet: ClientPacket)
    | Deliver(fd: int, answer: ModemPacket)

  // ---------------------------------------------------------------- one event

  /** The first record removed, if there is one. */
  function Without(clients: seq<Client>, c: Client): (r: seq<Client>)
    ensures multiset(r) == multiset(clients) - multiset{c}
  {
    if clients == [] then []
    else if clients[0] == c then
      assert clients == [c] + clients[1..];
      clients[1..]
    else
      assert clients == [clients[0]] + clients[1..];
      [clients[0]] + Without(clients[1..], c)
  }

  /** `get_client_id` and `release_client_id`, and which of them an answer calls for. */
  function Bookkeep(clients: seq<Client>, p: ModemPacket): seq<Client>
    requires p.Response?
  {
    if p.result != 0 || p.error != 0 then clients
    else match p.kind
      case GetClientIdResp => clients + [p.client]
      case ReleaseClientIdResp => Without(clients, p.client)
      case RevokeClientIdInd => Without(clients, p.client)
      case OtherResp => clients
  }

  /** The walk does not stop at the first connection with the descriptor. */
  function Answered(connections: seq<Connection>, fd: int, p: ModemPacket): (r: seq<Connection>)
    requires p.Response?
    ensures |r| == |connections|
    ensures forall k :: 0 <= k < |r| ==>
      r[k] == if connections[k].fd == fd then Connection(fd, Bookkeep(connections[k].clients, p)) else connections[k]
  {
    if connections == [] then []
    else [if connections[0].fd == fd then Connection(fd, Bookkeep(connections[0].clients, p)) else connections[0]] +
         Answered(connections[1..], fd, p)
  }

  /** One output per connection that has the descriptor. */
  function PerConnection(connections: seq<Connection>, fd: int, out: Output): (r: seq<Output>) {
    if connections == [] then []
    else (if connections[0].fd == fd then [out] else []) + PerConnection(connections[1..], fd, out)
  }

  function ForwardHead(s: State): seq<Output> {
    if s.queue == [] then [] else PerConnection(s.connections, s.queue[0].fd, Forward(s.queue[0]))
  }

  /** A client id of 0 addresses every record of the service. */
  predicate Addresses(p: ModemPacket, c: Client)
    requires p.FromService?
  {
    p.qmiType == c.qmiType && (p.clientId == 0 || p.clientId == c.clientId)
  }

  function DeliverTo(fd: int, clients: seq<Client>, p: ModemPacket): seq<Output>
    requires p.FromService?
  {
    if clients == [] then []
    else (if Addresses(p, clients[0]) then [Deliver(fd, p)] else []) + DeliverTo(fd, clients[1..], p)
  }

  function Broadcast(connections: seq<Connection>, p: ModemPacket): seq<Output>
    requires p.FromService?
  {
    if connections == [] then []
    else DeliverTo(connections[0].fd, connections[0].clients, p) + Broadcast(connections[1..], p)
  }

  /** The answer goes to the sender of the head, which leaves the queue. */
  function AnswerHead(s: State, p: ModemPacket): (r: (State, seq<Output>))
    requires p.Response?
  {
    if s.queue == [] then (s, [])
    else
      var fd := s.queue[0].fd;
      (State(s.queue[1..], Answered(s.connections, fd, p)), PerConnection(s.connections, fd, Deliver(fd, p)))
  }

  /** `recv_qmi_from_dev`. */
  function ReceiveFromModem(s: State, p: ModemPacket): (r: (State, seq<Output>)) {
    match p
    case Response(_, _, _, _) =>
      var (t, out) := AnswerHead(s, p);
      (t, out + ForwardHead(t))
    case Unsolicited => (s, ForwardHead(s))
    case FromService(_, _, _) => (s, Broadcast(s.connections, p))
  }

  /** `recv_qmi_from_client`. */
  function ReceiveFromClient(s: State, fd: int, p: ClientPacket): (r: (State, seq<Output>)) {
    match p
    case ToService(_, _, _) => (s, [Pass(p)])
    case Control(sync, body) =>
      if sync then (s, [])
      else
        var q := Queued(fd, body);
        (s.(queue := s.queue + [q]), if s.queue == [] then [Forward(q)] else [])
  }

  function FindConnection(connections: seq<Connection>, fd: int): (k: nat)
    ensures k <= |connections| && (k < |connections| ==> connections[k].fd == fd)
    ensures forall j :: 0 <= j < k ==> connections[j].fd != fd
  {
    if connections == [] || connections[0].fd == fd then 0 else 1 + FindConnection(connections[1..], fd)
  }

  /** The first request of a descriptor taken out of the queue. */
  function WithoutFirst(queue: seq<Queued>, fd: int): (r: seq<Queued>)
    ensures (forall q :: q in queue ==> q.fd != fd) ==> r == queue
  {
    if queue == [] then []
    else if queue[0].fd == fd then queue[1..]
    else [queue[0]] + WithoutFirst(queue[1..], fd)
  }

  /** `cleanup_qmi_connection`. */
  function Cleanup(s: State, fd: int): State {
    var k := FindConnection(s.connections, fd);
    if k == |s.connections| then s
    else State(WithoutFirst(s.queue, fd), s.connections[..k] + s.connections[k + 1..])
  }

  function Step(s: State, e: Event): (r: (State, seq<Output>)) {
    match e
    case Accept(fd) => (s.(connections := s.connections + [Connection(fd, [])]), [])
    case Hangup(fd) => (Cleanup(s, fd), [])
    case FromClient(fd, p) => ReceiveFromClient(s, fd, p)
    case FromModem(p) => ReceiveFromModem(s, p)
  }

  // ---------------------------------------------------------------- the code

  class Proxy {
    var queue: seq<Queued>
    var connections: seq<Connection>
    /** Everything written to the modem and to clients so far, in order. */
    var sent: seq<Output>

    constructor ()
      ensures Current() == State([], []) && sent == []
    {
      queue, connections, sent := [], [], [];
    }

    ghost function Current(): State
      reads this
    {
      State(queue, connections)
    }

    method AcceptConnection(fd: int)
      modifies this
      ensures (Current(), []) == Step(old(Current()), Accept(fd)) && sent == old(sent)
    {
      connections := connections + [Connection(fd, [])];
    }

    method CleanupConnection(fd: int)
      modifies this
      ensures (Current(), []) == Step(old(Current()), Hangup(fd)) && sent == old(sent)
    {
      var k := 0;
      while k < |connections| && connections[k].fd != fd
        invariant k <= |connections| && FindConnection(connections, fd) == k + FindConnection(connections[k..], fd)
        invariant Current() == old(Current()) && sent == old(sent)
      {
        assert connections[k..][1..] == connections[k + 1..];
        k := k + 1;
      }
      if k < |connections| {
        DropFirst(fd);
        connections := connections[..k] + connections[k + 1..];
      }
    }

    method DropFirst(fd: int)
      modifies `queue
      ensures queue == WithoutFirst(old(queue), fd)
    {
      var i := 0;
      assert queue[..0] + WithoutFirst(queue[0..], fd) == WithoutFirst(queue, fd);
      while i < |queue|
        invariant i <= |queue| && queue == old(queue)
        invariant queue[..i] + WithoutFirst(queue[i..], fd) == WithoutFirst(queue, fd)
      {
        if queue[i].fd == fd {
          assert queue[i..][1..] == queue[i + 1..];
          queue := queue[..i] + queue[i + 1..];
          return;
        }
        assert queue[i..][1..] == queue[i + 1..];
        assert queue[..i] + ([queue[i]] + WithoutFirst(queue[i + 1..], fd)) ==
               queue[..i + 1] + WithoutFirst(queue[i + 1..], fd);
        i := i + 1;
      }
    }

    method FromClientPacket(fd: int, p: ClientPacket)
      modifies this
      ensures Current() == ReceiveFromClient(old(Current()), fd, p).0
      ensures sent == old(sent) + ReceiveFromClient(old(Current()), fd, p).1
    {
      if p.Control? {
        if p.sync {
          return;
        }
        if queue == [] {
          sent := sent + [Forward(Queued(fd, p.body))];
        }
        queue := queue + [Queued(fd, p.body)];
      } else {
        sent := sent + [Pass(p)];
      }
    }

    method FromModemPacket(p: ModemPacket)
      modifies this
      ensures Current() == ReceiveFromModem(old(Current()), p).0
      ensures sent == old(sent) + ReceiveFromModem(old(Current()), p).1
    {
      hide Answered, PerConnection, Broadcast, ForwardHead;
      if p.FromService? {
        SendToHolders(p);
      } else {
        if p.Response? && queue != [] {
          AnswerSender(p);
          queue := queue[1..];
        }
        ResendHead();
      }
    }

    method AnswerSender(p: ModemPacket)
      requires p.Response? && queue != []
      modifies `connections, `sent
      ensures connections == Answered(old(connections), queue[0].fd, p)
      ensures sent == old(sent) + PerConnection(old(connections), queue[0].fd, Deliver(queue[0].fd, p))
    {
      hide Bookkeep, Answered, PerConnection;
      var fd := queue[0].fd;
      ghost var all := connections;
      ghost var out := Deliver(fd, p);
      assert all[0..] == all;
      for k := 0 to |connections|
        invariant |connections| == |all|
        invariant forall j :: 0 <= j < |all| ==> connections[j] == if j < k then Answered(all, fd, p)[j] else all[j]
        invariant sent + PerConnection(all[k..], fd, out) == old(sent) + PerConnection(all, fd, out)
      {
        PerConnectionStep(all, k, fd, out);
        if connections[k].fd == fd {
          sent := sent + [Deliver(fd, p)];
          var clients := UpdateRecords(connections[k].clients, p);
          connections := connections[k := Connection(fd, clients)];
        }
      }
      PerConnectionEnd(all, fd, out);
    }

    /** `get_client_id` and `release_client_id`. */
    method UpdateRecords(clients: seq<Client>, p: ModemPacket) returns (r: seq<Client>)
      requires p.Response?
      ensures r == Bookkeep(clients, p)
    {
      r := clients;
      if p.result != 0 || p.error != 0 {
        return;
      }
      if p.kind == GetClientIdResp {
        r := r + [p.client];
      } else if p.kind == ReleaseClientIdResp || p.kind == RevokeClientIdInd {
        r := RemoveRecord(clients, p.client);
      }
    }

    method RemoveRecord(clients: seq<Client>, c: Client) returns (r: seq<Client>)
      ensures r == Without(clients, c)
    {
      hide Without;
      assert clients[0..] == clients && clients[..0] == [];
      for i := 0 to |clients|
        invariant Without(clients, c) == clients[..i] + Without(clients[i..], c)
      {
        WithoutStep(clients, i, c);
        if clients[i] == c {
          return clients[..i] + clients[i + 1..];
        }
      }
      WithoutEnd(clients, c);
      return clients;
    }

    method ResendHead()
      modifies `sent
      ensures sent == old(sent) + ForwardHead(Current())
    {
      if queue != [] {
        ghost var out := Forward(queue[0]);
        assert connections[0..] == connections;
        for k := 0 to |connections|
          invariant sent + PerConnection(connections[k..], queue[0].fd, out) ==
                    old(sent) + PerConnection(connections, queue[0].fd, out)
        {
          assert connections[k..][1..] == connections[k + 1..];
          if connections[k].fd == queue[0].fd {
            sent := sent + [Forward(queue[0])];
          }
        }
      }
    }

    method SendToHolders(p: ModemPacket)
      requires p.FromService?
      modifies `sent
      ensures sent == old(sent) + Broadcast(connections, p)
    {
      assert connections[0..] == connections;
      for k := 0 to |connections|
        invariant sent + Broadcast(connections[k..], p) == old(sent) + Broadcast(connections, p)
      {
        assert connections[k..][1..] == connections[k + 1..];
        SendToRecords(connections[k], p);
      }
    }

    method SendToRecords(con: Connection, p: ModemPacket)
      requires p.FromService?
      modifies `sent
      ensures sent == old(sent) + DeliverTo(con.fd, con.clients, p)
    {
      assert con.clients[0..] == con.clients;
      for i := 0 to |con.clients|
        invariant sent + DeliverTo(con.fd, con.clients[i..], p) == old(sent) + DeliverTo(con.fd, con.clients, p)
      {
        assert con.clients[i..][1..] == con.clients[i + 1..];
        if con.clients[i].qmiType == p.qmiType {
          if p.clientId == 0 || p.clientId == con.clients[i].clientId {
            sent := sent + [Deliver(con.fd, p)];
          }
        }
      }
    }
  }

  // ---------------------------------------------------------------- walks over the lists

  lemma PerConnectionStep(connections: seq<Connection>, k: nat, fd: int, out: Output)
    requires k < |connections|
    ensures PerConnection(connections[k..], fd, out) ==
            (if connections[k].fd == fd then [out] else []) + PerConnection(connections[k + 1..], fd, out)
  {
    assert connections[k..][1..] == connections[k + 1..];
  }

  lemma PerConnectionEnd(connections: seq<Connection>, fd: int, out: Output)
    ensures PerConnection(connections[|connections|..], fd, out) == []
  {
  }

  lemma WithoutCons(x: Client, tail: seq<Client>, c: Client)
    ensures Without([x] + tail, c) == if x == c then tail else [x] + Without(tail, c)
  {
    assert ([x] + tail)[1..] == tail;
  }

  lemma WithoutStep(clients: seq<Client>, i: nat, c: Client)
    requires i < |clients|
    ensures clients[i] == c ==> Without(clients[i..], c) == clients[i + 1..]
    ensures clients[i] != c ==>
              clients[..i] + Without(clients[i..], c) == clients[..i + 1] + Without(clients[i + 1..], c)
  {
    hide Without;
    assert clients[i..] == [clients[i]] + clients[i + 1..];
    WithoutCons(clients[i], clients[i + 1..], c);
    assert clients[..i + 1] == clients[..i] + [clients[i]];
    Regroup(clients[..i], [clients[i]], Without(clients[i + 1..], c));
  }

  lemma WithoutEnd(clients: seq<Client>, c: Client)
    ensures clients[..|clients|] + Without(clients[|clients|..], c) == clients
  {
    assert clients[|clients|..] == [];
  }
}
