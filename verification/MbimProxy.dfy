/** quectel_cm_5G/src/quectel-mbim-proxy.c: clients of one MBIM device are told apart by the top byte of
    the transaction id. Messages are little-endian on a little-endian host. */
module MbimProxy {
  import Bytes

  /** A slot of `cm_clients`. The index is an `int` in the source and never more than 32. */
  datatype Slot = Slot(fd: int, idx: bv8)

  datatype Message = Message(kind: bv32, tid: bv32, body: seq<bv8>)

  datatype Event =
    | Connect(fd: int)
    | Disconnect(fd: int)
    | FromClient(fd: int, request: Message)
    | FromDevice(response: Message)

  datatype Output = ToDevice(message: Message) | ToClient(fd: int, message: Message)

  const MAX_CLIENT: nat := 32
  const TID_MASK: bv32 := 0xFFFFFF
  const MBIM_OPEN_MSG: bv32 := 1
  const MBIM_CLOSE_MSG: bv32 := 2
  const DONE: bv32 := 0x8000_0000

  function Tag(tid: bv32, idx: bv8): bv32 {
    tid | ((idx as bv32) << 24)
  }

  function Owner(tid: bv32): bv8 {
    ((tid >> 24) & 0xFF) as bv8
  }

  function Untag(tid: bv32): bv32 {
    tid & TID_MASK
  }

  /** What the proxy answers an OPEN or CLOSE with on its own: status 0. */
  function Done(m: Message): Message {
    Message(m.kind | DONE, m.tid, [0, 0, 0, 0])
  }

  // ---------------------------------------------------------------- one event

  /** The first slot that satisfies the condition of the loops, or the number of slots. */
  function FreeSlot(slots: seq<Slot>): (i: nat)
    ensures i <= |slots| && (i < |slots| ==> slots[i].fd <= 0)
    ensures forall j :: 0 <= j < i ==> slots[j].fd > 0
  {
    if slots == [] || slots[0].fd <= 0 then 0 else 1 + FreeSlot(slots[1..])
  }

  function SlotOf(slots: seq<Slot>, fd: int): (i: nat)
    ensures i <= |slots| && (i < |slots| ==> slots[i].fd == fd)
    ensures forall j :: 0 <= j < i ==> slots[j].fd != fd
  {
    if slots == [] || slots[0].fd == fd then 0 else 1 + SlotOf(slots[1..], fd)
  }

  function SlotAt(slots: seq<Slot>, idx: bv8): (i: nat)
    ensures i <= |slots| && (i < |slots| ==> slots[i].idx == idx && slots[i].fd > 0)
    ensures forall j :: 0 <= j < i ==> !(slots[j].idx == idx && slots[j].fd > 0)
  {
    if slots == [] || (slots[0].idx == idx && slots[0].fd > 0) then 0 else 1 + SlotAt(slots[1..], idx)
  }

  function LiveFds(slots: seq<Slot>): seq<int> {
    if slots == [] then [] else (if slots[0].fd > 0 then [slots[0].fd] else []) + LiveFds(slots[1..])
  }

  function Connected(slots: seq<Slot>, fd: int): seq<Slot>
    requires |slots| == MAX_CLIENT
  {
    var i := FreeSlot(slots);
    if fd < 0 || i == |slots| then slots else slots[i := Slot(fd, (i + 1) as bv8)]
  }

  function Disconnected(slots: seq<Slot>, fd: int): seq<Slot> {
    var i := SlotOf(slots, fd);
    if i < |slots| && slots[i].fd > 0 then slots[i := slots[i].(fd := -1)] else slots
  }

  function Requested(slots: seq<Slot>, fd: int, m: Message): seq<Output> {
    var i := SlotOf(slots, fd);
    if i == |slots| then []
    else if m.kind == MBIM_OPEN_MSG || m.kind == MBIM_CLOSE_MSG then [ToClient(fd, Done(m))]
    else [ToDevice(m.(tid := Tag(m.tid, slots[i].idx)))]
  }

  function ToEach(fds: seq<int>, m: Message): seq<Output> {
    seq(|fds|, k requires 0 <= k < |fds| => ToClient(fds[k], m))
  }

  function Responded(slots: seq<Slot>, m: Message): seq<Output> {
    if m.tid == 0 then ToEach(LiveFds(slots), m)
    else
      var i := SlotAt(slots, Owner(m.tid));
      if i == |slots| then [] else [ToClient(slots[i].fd, m.(tid := Untag(m.tid)))]
  }

  function Step(slots: seq<Slot>, e: Event): (r: (seq<Slot>, seq<Output>))
    requires |slots| == MAX_CLIENT
    ensures |r.0| == MAX_CLIENT
  {
    match e
    case Connect(fd) => (Connected(slots, fd), [])
    case Disconnect(fd) => (Disconnected(slots, fd), [])
    case FromClient(fd, m) => (slots, Requested(slots, fd, m))
    case FromDevice(m) => (slots, Responded(slots, m))
  }

  function Start(): (r: seq<Slot>)
    ensures |r| == MAX_CLIENT
  {
    seq(MAX_CLIENT, _ => Slot(0, 0))
  }

  // ---------------------------------------------------------------- the code

  class Proxy {
    const clients: array<Slot>
    /** Everything written so far, in order. */
    var sent: seq<Output>

    constructor ()
      ensures Valid() && clients[..] == Start() && sent == [] && fresh(clients)
    {
      clients := new Slot[MAX_CLIENT](_ => Slot(0, 0));
      sent := [];
    }

    ghost predicate Valid() {
      clients.Length == MAX_CLIENT
    }

    /** `handle_client_connect`, after `accept` returned `fd`. */
    method HandleConnect(fd: int) returns (ok: bool)
      requires Valid()
      modifies clients
      ensures clients[..] == Connected(old(clients[..]), fd)
      ensures ok <==> fd >= 0 && FreeSlot(old(clients[..])) < MAX_CLIENT
    {
      if fd < 0 {
        return false;
      }
      assert clients[0..] == clients[..];
      for i := 0 to clients.Length
        invariant clients[..] == old(clients[..])
        invariant FreeSlot(clients[..]) == i + FreeSlot(clients[i..])
      {
        assert clients[i..][1..] == clients[i + 1..];
        if clients[i].fd <= 0 {
          clients[i] := Slot(fd, (i + 1) as bv8);
          return true;
        }
      }
      return false;
    }

    method HandleDisconnect(fd: int)
      requires Valid()
      modifies clients
      ensures clients[..] == Disconnected(old(clients[..]), fd)
    {
      assert clients[0..] == clients[..];
      for i := 0 to clients.Length
        invariant clients[..] == old(clients[..])
        invariant SlotOf(clients[..], fd) == i + SlotOf(clients[i..], fd)
      {
        assert clients[i..][1..] == clients[i + 1..];
        if clients[i].fd == fd {
          if clients[i].fd > 0 {
            clients[i] := clients[i].(fd := -1);
          }
          return;
        }
      }
    }

    method HandleRequest(fd: int, m: Message)
      modifies `sent
      ensures sent == old(sent) + Requested(clients[..], fd, m)
    {
      hide Tag, Done;
      var i := 0;
      assert clients[0..] == clients[..];
      while i < clients.Length && clients[i].fd != fd
        invariant i <= clients.Length && SlotOf(clients[..], fd) == i + SlotOf(clients[i..], fd)
      {
        assert clients[i..][1..] == clients[i + 1..];
        i := i + 1;
      }
      if i == clients.Length {
        return;
      }
      if m.kind == MBIM_OPEN_MSG || m.kind == MBIM_CLOSE_MSG {
        sent := sent + [ToClient(fd, Done(m))];
        return;
      }
      sent := sent + [ToDevice(m.(tid := Tag(m.tid, clients[i].idx)))];
    }

    /** The branch for a message that answers no request. */
    method Broadcast(m: Message)
      modifies `sent
      ensures sent == old(sent) + ToEach(LiveFds(clients[..]), m)
    {
      ghost var all := ToEach(LiveFds(clients[..]), m);
      assert clients[0..] == clients[..];
      for i := 0 to clients.Length
        invariant sent + ToEach(LiveFds(clients[i..]), m) == old(sent) + all
      {
        ghost var before := sent;
        NextLive(clients[..], i, m);
        hide ToEach, LiveFds;
        if clients[i].fd > 0 {
          sent := sent + [ToClient(clients[i].fd, m)];
          Bytes.Regroup(before, [ToClient(clients[i].fd, m)], ToEach(LiveFds(clients[i + 1..]), m));
        }
      }
      assert sent + [] == sent;
    }

    method HandleResponse(m: Message)
      modifies `sent
      ensures sent == old(sent) + Responded(clients[..], m)
    {
      hide Owner, Untag;
      assert clients[0..] == clients[..];
      if m.tid == 0 {
        Broadcast(m);
      } else {
        var idx := Owner(m.tid);
        for i := 0 to clients.Length
          invariant sent == old(sent)
          invariant SlotAt(clients[..], idx) == i + SlotAt(clients[i..], idx)
        {
          assert clients[i..][1..] == clients[i + 1..];
          if clients[i].idx == idx && clients[i].fd > 0 {
            sent := sent + [ToClient(clients[i].fd, m.(tid := Untag(m.tid)))];
            return;
          }
        }
      }
    }
  }

  lemma NextLive(slots: seq<Slot>, i: nat, m: Message)
    requires i < |slots|
    ensures ToEach(LiveFds(slots[i..]), m) ==
            (if slots[i].fd > 0 then [ToClient(slots[i].fd, m)] else []) + ToEach(LiveFds(slots[i + 1..]), m)
  {
    assert slots[i..][1..] == slots[i + 1..];
  }

  // ---------------------------------------------------------------- tags

  /** Below 2 to the 24 a tag comes off cleanly; above, part of the client's own id is lost. */
  lemma TagUntag(tid: bv32, idx: bv8)
    ensures Untag(Tag(tid, idx)) == tid <==> tid <= 0xFFFFFF
    ensures tid <= 0xFFFFFF ==> Owner(Tag(tid, idx)) == idx
    ensures idx != 0 ==> Tag(tid, idx) != 0
  {
  }

  lemma SlotIndex(i: nat)
    requires i < MAX_CLIENT
    ensures ((i + 1) as bv8) as nat == i + 1 && (i + 1) as bv8 != 0
  {
  }

  lemma IndexIsUnique(i: nat, j: nat)
    requires i < MAX_CLIENT && j < MAX_CLIENT
    ensures (i + 1) as bv8 == (j + 1) as bv8 <==> i == j
  {
    SlotIndex(i);
    SlotIndex(j);
  }

  // ---------------------------------------------------------------- the table

  /** The index of a used slot is its place, and no descriptor is in two used slots. */
  ghost predicate Wellformed(slots: seq<Slot>) {
    |slots| == MAX_CLIENT &&
    (forall i :: 0 <= i < |slots| && slots[i].fd > 0 ==> slots[i].idx == (i + 1) as bv8) &&
    (forall i, j :: 0 <= i < j < |slots| && slots[i].fd > 0 ==> slots[i].fd != slots[j].fd)
  }

  predicate Live(slots: seq<Slot>, fd: int) {
    fd > 0 && SlotOf(slots, fd) < |slots|
  }

  /** The system gives out no descriptor that is open. */
  ghost predicate Allowed(slots: seq<Slot>, e: Event) {
    e.Connect? ==> !Live(slots, e.fd)
  }

  lemma StepKeepsWellformed(slots: seq<Slot>, e: Event)
    requires Wellformed(slots) && Allowed(slots, e)
    ensures Wellformed(Step(slots, e).0)
  {
    hide SlotOf, FreeSlot, Requested, Responded;
  }

  /** A response that echoes the tag of slot `i` reaches whoever is in that slot, with the id the client
      had chosen, and nobody if the slot is empty. */
  lemma EchoReachesSlot(slots: seq<Slot>, i: nat, tid: bv32, response: Message)
    requires Wellformed(slots) && i < MAX_CLIENT && tid <= 0xFFFFFF
    requires response.tid == Tag(tid, (i + 1) as bv8)
    ensures Responded(slots, response) ==
            if slots[i].fd > 0 then [ToClient(slots[i].fd, response.(tid := tid))] else []
  {
    hide Tag, Untag, Owner, SlotAt;
    SlotIndex(i);
    TagUntag(tid, (i + 1) as bv8);
    var k := SlotAt(slots, Owner(response.tid));
    if k < |slots| {
      IndexIsUnique(i, k);
    }
  }

  /** What a client sends comes back to it under its own id, if the device echoes the id it was given
      and the client is still there. */
  lemma RequestEchoes(slots: seq<Slot>, fd: int, m: Message)
    requires Wellformed(slots) && Live(slots, fd) && m.tid <= 0xFFFFFF
    requires m.kind != 1 && m.kind != 2
    ensures exists tagged: Message {:trigger ToDevice(tagged)} ::
      Requested(slots, fd, m) == [ToDevice(tagged)] && tagged.kind == m.kind && tagged.body == m.body &&
      forall response: Message {:trigger Responded(slots, response)} ::
        response.tid == tagged.tid ==> Responded(slots, response) == [ToClient(fd, response.(tid := m.tid))]
  {
    hide Tag, Untag, Owner, SlotAt, SlotOf, Responded;
    var i := SlotOf(slots, fd);
    var tagged := m.(tid := Tag(m.tid, slots[i].idx));
    assert Requested(slots, fd, m) == [ToDevice(tagged)];
    forall response: Message | response.tid == tagged.tid
      ensures Responded(slots, response) == [ToClient(fd, response.(tid := m.tid))]
    {
      EchoReachesSlot(slots, i, m.tid, response);
    }
  }

  lemma {:induction false} LiveFdsAre(slots: seq<Slot>, fd: int)
    ensures fd in LiveFds(slots) <==> exists i :: 0 <= i < |slots| && slots[i].fd == fd > 0
  {
    if slots != [] {
      LiveFdsAre(slots[1..], fd);
      if i :| 0 <= i < |slots| && slots[i].fd == fd > 0 {
        assert i > 0 ==> slots[1..][i - 1].fd == fd;
      }
    }
  }

  lemma {:induction false} LiveFdsOnce(slots: seq<Slot>)
    requires forall i, j :: 0 <= i < j < |slots| && slots[i].fd > 0 ==> slots[i].fd != slots[j].fd
    ensures forall a, b :: 0 <= a < b < |LiveFds(slots)| ==> LiveFds(slots)[a] != LiveFds(slots)[b]
  {
    if slots != [] {
      forall i, j | 0 <= i < j < |slots[1..]| && slots[1..][i].fd > 0 ensures slots[1..][i].fd != slots[1..][j].fd {
        assert slots[1..][i] == slots[i + 1] && slots[1..][j] == slots[j + 1];
      }
      LiveFdsOnce(slots[1..]);
      var fds, rest := LiveFds(slots), LiveFds(slots[1..]);
      if slots[0].fd > 0 {
        LiveFdsAre(slots[1..], slots[0].fd);
        assert slots[0].fd !in rest by {
          forall i | 0 <= i < |slots[1..]| ensures slots[1..][i].fd != slots[0].fd {
            assert slots[1..][i] == slots[i + 1];
          }
        }
        assert fds == [slots[0].fd] + rest;
        forall a, b | 0 <= a < b < |fds| ensures fds[a] != fds[b] {
          assert fds[b] == rest[b - 1];
          assert a > 0 ==> fds[a] == rest[a - 1];
        }
      }
    }
  }

  /** A message with id 0 goes, unchanged, to every live client once. */
  lemma UnsolicitedReachesAll(slots: seq<Slot>, m: Message, fd: int)
    requires Wellformed(slots) && m.tid == 0
    ensures ToClient(fd, m) in Responded(slots, m) <==> Live(slots, fd)
    ensures forall a, b :: 0 <= a < b < |Responded(slots, m)| ==> Responded(slots, m)[a] != Responded(slots, m)[b]
    ensures forall out :: out in Responded(slots, m) ==> out == ToClient(out.fd, m)
  {
    hide LiveFds, SlotOf;
    var fds, out := LiveFds(slots), Responded(slots, m);
    LiveFdsAre(slots, fd);
    LiveFdsOnce(slots);
    assert Live(slots, fd) <==> fd in fds;
    if fd in fds {
      var k :| 0 <= k < |fds| && fds[k] == fd;
      assert out[k] == ToClient(fd, m);
    }
  }

  // ---------------------------------------------------------------- every run

  function Run(events: seq<Event>): (r: seq<Slot>)
    ensures |r| == MAX_CLIENT
  {
    if events == [] then Start() else Step(Run(events[..|events| - 1]), events[|events| - 1]).0
  }

  ghost predicate Orderly(events: seq<Event>) {
    forall n :: 0 <= n < |events| ==> Allowed(Run(events[..n]), events[n])
  }

  lemma {:induction false} EveryRunIsWellformed(events: seq<Event>)
    requires Orderly(events)
    ensures Wellformed(Run(events))
    decreases |events|
  {
    hide Step, Wellformed, Allowed;
    if events == [] {
      StartIsWellformed();
    } else {
      var past := events[..|events| - 1];
      forall n | 0 <= n < |past| ensures Allowed(Run(past[..n]), past[n]) {
        assert past[..n] == events[..n] && past[n] == events[n];
      }
      EveryRunIsWellformed(past);
      StepKeepsWellformed(Run(past), events[|events| - 1]);
    }
  }

  lemma StartIsWellformed()
    ensures Wellformed(Start())
  {
  }

  /** A client keeps its slot until it disconnects, whatever else happens. */
  lemma StepKeepsSlot(slots: seq<Slot>, e: Event, i: nat)
    requires |slots| == MAX_CLIENT && i < MAX_CLIENT && slots[i].fd > 0 && e != Disconnect(slots[i].fd)
    ensures Step(slots, e).0[i] == slots[i]
  {
    hide FreeSlot, SlotOf, Requested, Responded;
  }

  lemma {:induction false} SlotStays(events: seq<Event>, more: seq<Event>, i: nat)
    requires i < MAX_CLIENT && Run(events)[i].fd > 0
    requires forall e :: e in more ==> e != Disconnect(Run(events)[i].fd)
    ensures Run(events + more)[i] == Run(events)[i]
    decreases |more|
  {
    hide Step;
    if more == [] {
      assert events + more == events;
    } else {
      var n := |more| - 1;
      var all := events + more;
      assert all[..|all| - 1] == events + more[..n] && all[|all| - 1] == more[n];
      assert forall e :: e in more[..n] ==> e in more;
      SlotStays(events, more[..n], i);
      assert more[n] in more;
      StepKeepsSlot(Run(events + more[..n]), more[n], i);
    }
  }

  /** Over any run: a request's echo that arrives after further events goes to the client that issued
      it, under its own id, unless that client disconnected in the meantime. */
  lemma LateEchoReachesIssuer(events: seq<Event>, more: seq<Event>, fd: int, m: Message, response: Message)
    requires Orderly(events + more) && Live(Run(events), fd) && m.tid <= 0xFFFFFF
    requires Requested(Run(events), fd, m) == [ToDevice(m.(tid := response.tid))]
    requires forall e :: e in more ==> e != Disconnect(fd)
    ensures Responded(Run(events + more), response) == [ToClient(fd, response.(tid := m.tid))]
  {
    hide Run, SlotOf, Tag, Responded, Wellformed, Allowed;
    var slots := Run(events);
    forall n | 0 <= n < |events| ensures Allowed(Run(events[..n]), events[n]) {
      assert (events + more)[..n] == events[..n] && (events + more)[n] == events[n];
    }
    EveryRunIsWellformed(events);
    EveryRunIsWellformed(events + more);
    var i := SlotOf(slots, fd);
    SlotStays(events, more, i);
    IndexAt(slots, i);
    EchoReachesSlot(Run(events + more), i, m.tid, response);
  }

  lemma IndexAt(slots: seq<Slot>, i: nat)
    requires Wellformed(slots) && i < MAX_CLIENT && slots[i].fd > 0
    ensures slots[i].idx == (i + 1) as bv8
  {
  }

  /** No event makes the proxy pass an OPEN or CLOSE on to the device, and what it passes on differs
      from what the client sent in the id only. */
  lemma OpenAndCloseStayLocal(slots: seq<Slot>, e: Event, message: Message)
    requires |slots| == MAX_CLIENT && ToDevice(message) in Step(slots, e).1
    ensures e.FromClient? && message.kind == e.request.kind && message.body == e.request.body
    ensures message.kind != 1 && message.kind != 2
  {
    hide SlotOf, SlotAt, LiveFds, Tag, Untag, Owner;
  }

  /** Who the clients are: a new one gets one of the 32 slots as long as one is free, and is turned away
      otherwise; nobody else is affected. */
  lemma ConnectTakesAFreeSlot(slots: seq<Slot>, fd: int)
    requires Wellformed(slots) && fd > 0 && !Live(slots, fd)
    ensures |slots| == 32
    ensures var next := Step(slots, Connect(fd)).0;
      (Live(next, fd) <==> exists i :: 0 <= i < 32 && slots[i].fd <= 0) &&
      (!Live(next, fd) ==> next == slots) &&
      forall f :: f != fd ==> (Live(next, f) <==> Live(slots, f))
  {
    hide FreeSlot;
    var k := FreeSlot(slots);
    var next := Step(slots, Connect(fd)).0;
    forall f ensures Live(slots, f) <==> f > 0 && exists i :: 0 <= i < 32 && slots[i].fd == f {
      LiveMeans(slots, f);
    }
    forall f ensures Live(next, f) <==> f > 0 && exists i :: 0 <= i < 32 && next[i].fd == f {
      LiveMeans(next, f);
    }
    hide Live;
    if k < 32 {
      assert next[k].fd == fd;
      forall f | f != fd ensures Live(next, f) <==> Live(slots, f) {
        OtherSlots(slots, k, next, f);
      }
    }
  }

  /** The slots after a connection came or went: only the first that fits is touched. */
  lemma SlotsAfter(slots: seq<Slot>, fd: int, i: nat)
    requires |slots| == 32 && i < 32
    ensures fd >= 0 && slots[i].fd <= 0 && (forall j :: 0 <= j < i ==> slots[j].fd > 0) ==>
              Step(slots, Connect(fd)).0 == slots[i := Slot(fd, (i + 1) as bv8)]
    ensures fd < 0 ==> Step(slots, Connect(fd)).0 == slots
    ensures slots[i].fd == fd && (forall j :: 0 <= j < i ==> slots[j].fd != fd) ==>
              Step(slots, Disconnect(fd)).0 == if fd > 0 then slots[i := Slot(-1, slots[i].idx)] else slots
  {
    hide FreeSlot, SlotOf;
    var free, own := FreeSlot(slots), SlotOf(slots, fd);
    assert free < i ==> slots[free].fd <= 0;
    assert own < i ==> slots[own].fd == fd;
  }

  lemma LiveMeans(slots: seq<Slot>, fd: int)
    ensures Live(slots, fd) <==> fd > 0 && exists i :: 0 <= i < |slots| && slots[i].fd == fd
  {
    hide SlotOf;
  }

  lemma OtherSlots(slots: seq<Slot>, k: nat, next: seq<Slot>, f: int)
    requires k < |slots| == |next| && slots[k].fd <= 0 && next == slots[k := next[k]] && f != next[k].fd
    ensures f > 0 && (exists i :: 0 <= i < |next| && next[i].fd == f) <==>
            f > 0 && exists i :: 0 <= i < |slots| && slots[i].fd == f
  {
    assert forall i :: 0 <= i < |slots| && i != k ==> next[i] == slots[i];
    if f > 0 && exists i :: 0 <= i < |slots| && slots[i].fd == f {
      var i :| 0 <= i < |slots| && slots[i].fd == f;
      assert next[i].fd == f;
    }
  }

  /** After it has disconnected, a client is gone, and the others are still there. */
  lemma DisconnectRemoves(slots: seq<Slot>, fd: int, f: int)
    requires Wellformed(slots)
    ensures Live(Step(slots, Disconnect(fd)).0, f) <==> Live(slots, f) && f != fd
  {
    hide SlotOf;
    var next := Step(slots, Disconnect(fd)).0;
    LiveMeans(slots, f);
    LiveMeans(next, f);
    hide Live;
    var k := SlotOf(slots, fd);
    if f > 0 && f != fd {
      assert forall i :: 0 <= i < |slots| && slots[i].fd == f ==> next[i].fd == f;
      assert forall i :: 0 <= i < |next| && next[i].fd == f ==> slots[i].fd == f;
    }
  }

  /** An OPEN or CLOSE of a client is answered at once and to that client only: the done message of the
      same kind, with the id of the request and status 0. */
  lemma OpenAndCloseAreAnswered(slots: seq<Slot>, fd: int, m: Message)
    requires |slots| == MAX_CLIENT && Live(slots, fd) && (m.kind == 1 || m.kind == 2)
    ensures Step(slots, FromClient(fd, m)) ==
            (slots, [ToClient(fd, Message(m.kind | 0x8000_0000, m.tid, [0, 0, 0, 0]))])
  {
    hide SlotOf;
  }

  /** What comes from a descriptor without a slot is ignored, and so is a message whose tag is that of no
      slot. */
  lemma StrangersAreIgnored(slots: seq<Slot>, fd: int, m: Message)
    requires Wellformed(slots)
    ensures (forall i :: 0 <= i < 32 ==> slots[i].fd != fd) ==> Step(slots, FromClient(fd, m)) == (slots, [])
    ensures m.tid != 0 && (m.tid < 0x100_0000 || m.tid >= 0x2100_0000) ==> Step(slots, FromDevice(m)) == (slots, [])
  {
    hide SlotOf, SlotAt;
    var k := SlotAt(slots, Owner(m.tid));
    if k < |slots| {
      TagOfSlot(m.tid, k);
    }
  }

  lemma TagOfSlot(tid: bv32, k: nat)
    requires k < MAX_CLIENT && Owner(tid) == (k + 1) as bv8
    ensures 0x100_0000 <= tid < 0x2100_0000
  {
    SlotIndex(k);
    var idx := (k + 1) as bv8;
    IndexBound(k);
    OwnerBounds(tid, idx);
  }

  lemma IndexBound(k: nat)
    requires k < MAX_CLIENT
    ensures 1 <= (k + 1) as bv8 <= 32
  {
  }

  lemma OwnerBounds(tid: bv32, idx: bv8)
    requires Owner(tid) == idx && 1 <= idx <= 32
    ensures 0x100_0000 <= tid < 0x2100_0000
  {
  }
}
