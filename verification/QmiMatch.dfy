/** Matching responses to requests in quectel_cm_5G/src/QMIThread.c, with the header rewrite of
    quectel_cm_5G/src/QmiWwanCM.c. One mutex protects everything; a caller gives it up only while it
    waits, so a run is an interleaving of three kinds of steps: a caller starts a request and begins to
    wait, the reader takes a message, a waiting caller resumes. */
module QmiMatch {
  import opened Bytes

  datatype Header = Header(qmiType: byte, clientId: byte, tid: nat)

  datatype Response = Response(header: Header, body: seq<byte>)

  const QMUX_TYPE_CTL: byte := 0x00
  const QMUX_TYPE_WDS: byte := 0x01
  const QMUX_TYPE_WDS_IPV6: byte := 0x11

  const QMUX_TIDS: nat := 0xFFFF
  const QCTL_TIDS: nat := 0xFF

  /** `s_pRequest`, `s_pResponse` and the two transaction counters. */
  datatype Channel = Channel(request: Option<Header>, response: Option<Response>, qmux: nat, qctl: nat)

  // ---------------------------------------------------------------- single steps

  /** The counters start at 0 and never give 0 out. */
  function NextTid(counter: nat, last: nat): nat {
    if counter + 1 > last then 1 else counter + 1
  }

  predicate IsResponse(request: Header, response: Header) {
    request == response
  }

  /** `qmiclientId`, filled in when client ids are granted; 0 for a service without one. */
  function IdOf(clientIds: seq<byte>, qmiType: byte): byte {
    if qmiType as int < |clientIds| then clientIds[qmiType as int] else 0
  }

  /** The header as the device sees it; the request stays in `s_pRequest` in this form. */
  function Rewritten(h: Header, clientIds: seq<byte>): (r: Header) {
    if h.qmiType == QMUX_TYPE_CTL then h
    else
      var id := IdOf(clientIds, h.qmiType);
      if id == 0 then h.(clientId := 0)
      else if h.qmiType == QMUX_TYPE_WDS_IPV6 then Header(QMUX_TYPE_WDS, id, h.tid)
      else h.(clientId := id)
  }

  /** The send fails without a client id. */
  predicate Sendable(h: Header, clientIds: seq<byte>) {
    h.qmiType == QMUX_TYPE_CTL || IdOf(clientIds, h.qmiType) != 0
  }

  /** `ComposeQMUXMsg` or `ComposeQCTLMsg`, as far as the header goes. */
  function Composed(c: Channel, qmiType: byte): (Channel, Header) {
    if qmiType == QMUX_TYPE_CTL
    then (c.(qctl := NextTid(c.qctl, QCTL_TIDS)), Header(qmiType, 0, NextTid(c.qctl, QCTL_TIDS)))
    else (c.(qmux := NextTid(c.qmux, QMUX_TIDS)), Header(qmiType, 0, NextTid(c.qmux, QMUX_TIDS)))
  }

  /** `QmiThreadSendQMITimeout` up to the wait. */
  function Started(c: Channel, h: Header, clientIds: seq<byte>): Channel {
    c.(request := Some(Rewritten(h, clientIds)), response := None)
  }

  /** The rest of it: what is handed out, and what remains. */
  function Finished(c: Channel, timedOut: bool, wants: bool): (Channel, Option<Response>) {
    if timedOut then (c, None)
    else if c.response.Some? && wants then (c, c.response)
    else (c.(response := None), None)
  }

  /** `QmiThreadRecvQMI`; None stands for the NULL message of a lost device. */
  function Received(c: Channel, m: Option<Response>): Channel {
    if c.request.None? then c
    else if m.None? then c.(request := None, response := None)
    else if IsResponse(c.request.value, m.value.header) then c.(request := None, response := m)
    else c
  }

  // ---------------------------------------------------------------- the code

  /** A request in memory. The send rewrites it while `s_pRequest` points to it. */
  class Request {
    var qmiType: byte
    var clientId: byte
    const tid: nat

    constructor (qmiType: byte, tid: nat)
      ensures Current() == Header(qmiType, 0, tid)
    {
      this.qmiType, this.clientId, this.tid := qmiType, 0, tid;
    }

    function Current(): Header
      reads this
    {
      Header(qmiType, clientId, tid)
    }
  }

  class Matcher {
    /** `qmiclientId`. The source has no entry for QMUX_TYPE_ALL, 0xFF, which no request carries. */
    const clientIds: array<byte>
    var request: Request?
    var response: Option<Response>
    var qmux: nat
    var qctl: nat

    constructor ()
      ensures Valid() && Current() == Channel(None, None, 0, 0)
    {
      clientIds := new byte[256](_ => 0);
      request, response, qmux, qctl := null, None, 0, 0;
    }

    ghost predicate Valid() {
      clientIds.Length == 256
    }

    ghost function Current(): Channel
      reads this, request
    {
      Channel(if request == null then None else Some(request.Current()), response, qmux, qctl)
    }

    method GetQMUXTransactionId() returns (tid: nat)
      modifies `qmux
      ensures tid == qmux == NextTid(old(qmux), QMUX_TIDS)
    {
      qmux := qmux + 1;
      if qmux > QMUX_TIDS {
        qmux := 1;
      }
      return qmux;
    }

    method GetQCTLTransactionId() returns (tid: nat)
      modifies `qctl
      ensures tid == qctl == NextTid(old(qctl), QCTL_TIDS)
    {
      qctl := qctl + 1;
      if qctl > QCTL_TIDS {
        qctl := 1;
      }
      return qctl;
    }

    method Compose(qmiType: byte) returns (r: Request)
      modifies `qmux, `qctl
      ensures fresh(r) && (Current(), r.Current()) == Composed(old(Current()), qmiType)
    {
      var tid;
      if qmiType == QMUX_TYPE_CTL {
        tid := GetQCTLTransactionId();
      } else {
        tid := GetQMUXTransactionId();
      }
      r := new Request(qmiType, tid);
    }

    /** `QmiWwanSendQMI`; whether the write succeeds is up to the device. */
    method DeviceSend(r: Request, writes: bool) returns (ok: bool)
      requires Valid()
      modifies r
      ensures r.Current() == Rewritten(old(r.Current()), clientIds[..])
      ensures ok <==> Sendable(old(r.Current()), clientIds[..]) && writes
    {
      if r.qmiType != QMUX_TYPE_CTL {
        r.clientId := clientIds[r.qmiType as int];
        if r.clientId == 0 {
          return false;
        }
        if r.qmiType == QMUX_TYPE_WDS_IPV6 {
          r.qmiType := QMUX_TYPE_WDS;
        }
      }
      return writes;
    }

    method StartRequest(r: Request, writes: bool) returns (waits: bool)
      requires Valid()
      modifies `request, `response, r
      ensures Current() == Started(old(Current()), old(r.Current()), clientIds[..])
      ensures r.Current() == Rewritten(old(r.Current()), clientIds[..])
      ensures waits <==> Sendable(old(r.Current()), clientIds[..]) && writes
    {
      request := r;
      response := None;
      waits := DeviceSend(r, writes);
    }

    method FinishRequest(timedOut: bool, wants: bool) returns (result: Option<Response>)
      modifies `response
      ensures (Current(), result) == Finished(old(Current()), timedOut, wants)
    {
      result := None;
      if !timedOut {
        if response.Some? && wants {
          result := response;
        } else if response.Some? {
          response := None;
        }
      }
    }

    method Receive(m: Option<Response>)
      modifies `request, `response
      ensures Current() == Received(old(Current()), m)
    {
      if m.None? {
        if request != null {
          request := null;
          response := None;
        }
        return;
      }
      if request != null && IsResponse(request.Current(), m.value.header) {
        request := null;
        response := m;
      }
    }
  }

  // ---------------------------------------------------------------- runs

  /** What a waiting caller knows of its own request: the header as rewritten by the send, and how many
      requests of its family, control or service, had been composed when it was. */
  datatype Ticket = Ticket(own: Header, number: nat)

  /** The table of client ids is the one at the time of the request. */
  datatype Event =
    | Start(caller: nat, qmiType: byte, writes: bool, clientIds: seq<byte>)
    | Receive(message: Option<Response>)
    | Resume(caller: nat, timedOut: bool, wants: bool)

  datatype System = System(channel: Channel, waiting: map<nat, Ticket>, services: nat, controls: nat)

  datatype Handed = Handed(ticket: Ticket, response: Response)

  function Step(s: System, e: Event): (System, Option<Handed>) {
    match e
    case Start(caller, qmiType, writes, clientIds) =>
      if caller in s.waiting then (s, None)
      else
        var (c, h) := Composed(s.channel, qmiType);
        var control := qmiType == QMUX_TYPE_CTL;
        var number := if control then s.controls + 1 else s.services + 1;
        var ticket := Ticket(Rewritten(h, clientIds), number);
        (System(Started(c, h, clientIds),
                if Sendable(h, clientIds) && writes then s.waiting[caller := ticket] else s.waiting,
                if control then s.services else s.services + 1,
                if control then s.controls + 1 else s.controls), None)
    case Receive(m) => (s.(channel := Received(s.channel, m)), None)
    case Resume(caller, timedOut, wants) =>
      if caller !in s.waiting then (s, None)
      else
        var (c, result) := Finished(s.channel, timedOut, wants);
        (s.(channel := c, waiting := s.waiting - {caller}),
         if result.None? then None else Some(Handed(s.waiting[caller], result.value)))
  }

  function Run(events: seq<Event>): System {
    if events == [] then System(Channel(None, None, 0, 0), map[], 0, 0)
    else Step(Run(events[..|events| - 1]), events[|events| - 1]).0
  }

  /** A request is started only when no caller is waiting: all requests are made by one thread. */
  ghost predicate OneAtATime(events: seq<Event>) {
    forall n :: 0 <= n < |events| && events[n].Start? ==> Run(events[..n]).waiting == map[]
  }

  /** The transaction id of the n-th request of a family. */
  function TidOf(number: nat, last: nat): nat
    requires number > 0 && last > 0
  {
    (number - 1) % last + 1
  }

  predicate Counts(counter: nat, composed: nat, last: nat)
    requires last > 0
  {
    if composed == 0 then counter == 0 else counter == TidOf(composed, last)
  }

  lemma CounterCounts(counter: nat, composed: nat, last: nat)
    requires (last == QMUX_TIDS || last == QCTL_TIDS) && Counts(counter, composed, last)
    ensures Counts(NextTid(counter, last), composed + 1, last)
  {
    hide TidOf;
    TidSteps(composed, last);
  }

  lemma TidSteps(number: nat, last: nat)
    requires last == QMUX_TIDS || last == QCTL_TIDS
    ensures TidOf(1, last) == 1
    ensures number > 0 ==> 1 <= TidOf(number, last) <= last
    ensures number > 0 ==>
              TidOf(number + 1, last) == if TidOf(number, last) == last then 1 else TidOf(number, last) + 1
  {
    if number > 0 {
      if last == QMUX_TIDS {
        NextServiceResidue(number - 1);
      } else {
        NextControlResidue(number - 1);
      }
    }
  }

  lemma NextServiceResidue(m: nat)
    ensures (m + 1) % QMUX_TIDS == if m % QMUX_TIDS == QMUX_TIDS - 1 then 0 else m % QMUX_TIDS + 1
  {
  }

  lemma NextControlResidue(m: nat)
    ensures (m + 1) % QCTL_TIDS == if m % QCTL_TIDS == QCTL_TIDS - 1 then 0 else m % QCTL_TIDS + 1
  {
  }

  predicate ControlHeader(h: Header) {
    h.qmiType == QMUX_TYPE_CTL
  }

  function LastTid(h: Header): (n: nat)
    ensures n > 1
  {
    if ControlHeader(h) then QCTL_TIDS else QMUX_TIDS
  }

  /** A ticket whose id is that of its number, and whose response, if there already is one, matches. */
  ghost predicate TicketOk(t: Ticket, c: Channel) {
    t.number > 0 && t.own.tid == TidOf(t.number, LastTid(t.own)) &&
    (c.request.Some? ==> c.request.value == t.own) &&
    (c.response.Some? ==> IsResponse(t.own, c.response.value.header))
  }

  /** What one request at a time guarantees in every state. */
  ghost predicate Disciplined(s: System) {
    (forall a, b :: a in s.waiting && b in s.waiting ==> a == b) &&
    (forall a :: a in s.waiting ==> TicketOk(s.waiting[a], s.channel)) &&
    (forall a :: a in s.waiting ==>
       s.waiting[a].number == if ControlHeader(s.waiting[a].own) then s.controls else s.services) &&
    Counts(s.channel.qmux, s.services, QMUX_TIDS) && Counts(s.channel.qctl, s.controls, QCTL_TIDS)
  }

  lemma StartIsDisciplined(s: System, e: Event)
    requires Disciplined(s) && e.Start? && s.waiting == map[]
    ensures Disciplined(Step(s, e).0)
  {
    hide TidOf, NextTid;
    CounterCounts(s.channel.qmux, s.services, QMUX_TIDS);
    CounterCounts(s.channel.qctl, s.controls, QCTL_TIDS);
  }

  lemma StepKeepsDiscipline(s: System, e: Event)
    requires Disciplined(s) && (e.Start? ==> s.waiting == map[])
    ensures Disciplined(Step(s, e).0)
    ensures var out := Step(s, e).1;
      out.Some? ==> IsResponse(out.value.ticket.own, out.value.response.header) &&
                    out.value.ticket.number > 0 &&
                    out.value.ticket.own.tid == TidOf(out.value.ticket.number, LastTid(out.value.ticket.own))
  {
    hide TidOf, NextTid, Counts;
    if e.Start? {
      StartIsDisciplined(s, e);
    }
  }

  lemma {:induction false} EveryRunIsDisciplined(events: seq<Event>)
    requires OneAtATime(events)
    ensures Disciplined(Run(events))
    decreases |events|
  {
    hide Disciplined, Step;
    if events == [] {
      NothingIsDisciplined();
    } else {
      var past := events[..|events| - 1];
      forall n | 0 <= n < |past| && past[n].Start? ensures Run(past[..n]).waiting == map[] {
        assert past[..n] == events[..n];
      }
      EveryRunIsDisciplined(past);
      StepKeepsDiscipline(Run(past), events[|events| - 1]);
    }
  }

  lemma NothingIsDisciplined()
    ensures Disciplined(System(Channel(None, None, 0, 0), map[], 0, 0))
  {
  }

  /** In every run with one request at a time, under any interleaving with the reader: a response handed
      to a caller has the service, client id and transaction id of that caller's own request as the send
      rewrote it. */
  lemma ResponsesMatch(events: seq<Event>, e: Event)
    requires OneAtATime(events + [e])
    ensures var out := Step(Run(events), e).1;
      out.Some? ==> out.value.response.header == out.value.ticket.own
  {
    hide Disciplined, Step, Run;
    var all := events + [e];
    forall n | 0 <= n < |events| && events[n].Start? ensures Run(events[..n]).waiting == map[] {
      assert all[..n] == events[..n] && all[n] == events[n];
    }
    EveryRunIsDisciplined(events);
    assert all[..|events|] == events && all[|events|] == e;
    StepKeepsDiscipline(Run(events), e);
  }

  /** Two service requests have the same transaction id exactly when their numbers differ by a multiple
      of 65535. */
  lemma TidsRepeat(m: nat, n: nat)
    requires 0 < m <= n
    ensures TidOf(m, QMUX_TIDS) == TidOf(n, QMUX_TIDS) <==> (n - m) % QMUX_TIDS == 0
  {
    var p, q, r, t := (m - 1) / 65535, (n - 1) / 65535, (m - 1) % 65535, (n - 1) % 65535;
    Residue(m - 1, p, r);
    Residue(n - 1, q, t);
    if t >= r {
      Residue(n - m, q - p, t - r);
    } else {
      Residue(n - m, q - p - 1, t - r + 65535);
    }
  }

  /** Quotient and remainder are unique. */
  lemma Residue(x: nat, q: int, r: nat)
    requires x == 65535 * q + r && r < 65535
    ensures x % 65535 == r
  {
  }

  /** A late answer to the m-th service request is never handed to the caller of a later one within the
      next 65534; it could be again at the 65535th. */
  lemma LateResponseIsNotHanded(events: seq<Event>, e: Event, m: nat)
    requires OneAtATime(events + [e]) && m > 0
    requires Step(Run(events), e).1.Some?
    ensures var out := Step(Run(events), e).1.value;
      !ControlHeader(out.ticket.own) && out.response.header.tid == TidOf(m, QMUX_TIDS) && out.ticket.number >= m ==>
        out.ticket.number == m || out.ticket.number >= m + QMUX_TIDS
  {
    hide Disciplined, Step, Run, TidOf;
    var all := events + [e];
    forall n | 0 <= n < |events| && events[n].Start? ensures Run(events[..n]).waiting == map[] {
      assert all[..n] == events[..n] && all[n] == events[n];
    }
    EveryRunIsDisciplined(events);
    assert all[..|events|] == events && all[|events|] == e;
    StepKeepsDiscipline(Run(events), e);
    var out := Step(Run(events), e).1.value;
    if out.ticket.number >= m {
      TidsRepeat(m, out.ticket.number);
    }
  }

  /** And one request at a time is needed: from every state in which a caller waits, whatever request
      another one starts, sent or not, a message that answers this request is handed to the first caller,
      whose own request it does not match. */
  lemma OverlapMixesUp(s: System, a: nat, e: Event, body: seq<byte>)
    requires Disciplined(s) && a in s.waiting && e.Start? && e.caller !in s.waiting
    ensures var s1 := Step(s, e).0;
      s1.channel.request.Some? &&
      var answer := Response(s1.channel.request.value, body);
      var out := Step(Step(s1, Receive(Some(answer))).0, Resume(a, false, true)).1;
      out == Some(Handed(s.waiting[a], answer)) && answer.header != s.waiting[a].own
  {
    hide Counts, NextTid, TidOf;
    var control := e.qmiType == QMUX_TYPE_CTL;
    var last := if control then QCTL_TIDS else QMUX_TIDS;
    CounterCounts(s.channel.qmux, s.services, QMUX_TIDS);
    CounterCounts(s.channel.qctl, s.controls, QCTL_TIDS);
    NextDiffers(if control then s.channel.qctl else s.channel.qmux, if control then s.controls else s.services, last);
  }

  lemma NextDiffers(counter: nat, composed: nat, last: nat)
    requires (last == QMUX_TIDS || last == QCTL_TIDS) && Counts(counter, composed, last)
    ensures composed > 0 ==> NextTid(counter, last) != TidOf(composed, last)
  {
  }

  /** So a request may be started in a state exactly when no caller waits: otherwise some continuation
      hands out a response that does not match. */
  lemma StartIsSafe(s: System, e: Event)
    requires Disciplined(s) && e.Start? && e.caller !in s.waiting
    ensures s.waiting == map[] <==> AlwaysMatches(Step(s, e).0)
  {
    var s1 := Step(s, e).0;
    if s.waiting == map[] {
      StartIsDisciplined(s, e);
      forall m: Option<Response>, r: Event | r.Resume? ensures Fits(Step(Step(s1, Receive(m)).0, r).1) {
        StepKeepsDiscipline(s1, Receive(m));
        StepKeepsDiscipline(Step(s1, Receive(m)).0, r);
      }
    } else {
      var a :| a in s.waiting;
      OverlapMixesUp(s, a, e, []);
      var m: Option<Response> := Some(Response(s1.channel.request.value, []));
      var r := Resume(a, false, true);
      hide Step, Disciplined;
      assert r.Resume? && !Fits(Step(Step(s1, Receive(m)).0, r).1);
    }
  }

  ghost predicate Fits(out: Option<Handed>) {
    out.Some? ==> out.value.response.header == out.value.ticket.own
  }

  /** Whatever message comes in next, whichever caller resumes then gets a matching response or none. */
  ghost predicate AlwaysMatches(s: System) {
    forall m: Option<Response>, r: Event :: r.Resume? ==> Fits(Step(Step(s, Receive(m)).0, r).1)
  }

  /** With two threads it fails: the first caller resumes after the second one's answer has come in and
      is handed that. */
  lemma TwoCallersMixUp(clientIds: seq<byte>, body: seq<byte>)
    requires IdOf(clientIds, QMUX_TYPE_WDS) == 7
    ensures var own, other := Header(QMUX_TYPE_WDS, 7, 1), Header(QMUX_TYPE_WDS, 7, 2);
      var events := [Start(1, QMUX_TYPE_WDS, true, clientIds), Start(2, QMUX_TYPE_WDS, true, clientIds),
                     Receive(Some(Response(other, body)))];
      Step(Run(events), Resume(1, false, true)).1 == Some(Handed(Ticket(own, 1), Response(other, body)))
  {
    var e1, e2 := Start(1, QMUX_TYPE_WDS, true, clientIds), Start(2, QMUX_TYPE_WDS, true, clientIds);
    var events := [e1, e2, Receive(Some(Response(Header(QMUX_TYPE_WDS, 7, 2), body)))];
    assert events[..2] == [e1, e2] && [e1, e2][..1] == [e1] && [e1][..0] == [];
    RunMore([e1]);
    RunMore([e1, e2]);
    RunMore(events);
    assert Run([]) == System(Channel(None, None, 0, 0), map[], 0, 0);
    hide Run;
    var own, other := Header(QMUX_TYPE_WDS, 7, 1), Header(QMUX_TYPE_WDS, 7, 2);
    assert Run([e1]) == System(Channel(Some(own), None, 1, 0), map[1 := Ticket(own, 1)], 1, 0);
    assert Run([e1, e2]) ==
      System(Channel(Some(other), None, 2, 0), map[1 := Ticket(own, 1), 2 := Ticket(other, 2)], 2, 0);
    assert Run(events).channel.response == Some(Response(other, body));
  }

  lemma RunMore(events: seq<Event>)
    requires events != []
    ensures Run(events) == Step(Run(events[..|events| - 1]), events[|events| - 1]).0
  {
  }

  // ---------------------------------------------------------------- one exchange

  /** How a request leaves: control requests as they were composed; others with the client id of their
      service, which is needed; and IPv6 data (type 0x11) as data (type 1), but under the IPv6 id. */
  lemma HeadersSent(h: Header, clientIds: seq<byte>)
    requires |clientIds| == 256
    ensures var id := clientIds[h.qmiType as int];
      (Sendable(h, clientIds) <==> h.qmiType == 0 || id != 0) &&
      (h.qmiType == 0 ==> Rewritten(h, clientIds) == h) &&
      (h.qmiType == 0x11 && id != 0 ==> Rewritten(h, clientIds) == Header(1, id, h.tid)) &&
      (h.qmiType != 0 && h.qmiType != 0x11 ==> Rewritten(h, clientIds) == Header(h.qmiType, id, h.tid))
  {
  }

  /** In every run, the transaction ids count the requests of each family: services from 1 to 65535,
      control from 1 to 255, and then from 1 again. */
  lemma {:induction false} IdsCount(events: seq<Event>)
    ensures var s := Run(events);
      s.channel.qmux == (if s.services == 0 then 0 else (s.services - 1) % 65535 + 1) &&
      s.channel.qctl == (if s.controls == 0 then 0 else (s.controls - 1) % 255 + 1)
    decreases |events|
  {
    hide TidOf, NextTid, Rewritten, Sendable, Started;
    if events != [] {
      var past, e := events[..|events| - 1], events[|events| - 1];
      IdsCount(past);
      var s := Run(past);
      if e.Start? {
        CountNext(s.channel.qmux, s.services, QMUX_TIDS);
        CountNext(s.channel.qctl, s.controls, QCTL_TIDS);
        CountersStep(s, e);
      }
      hide Run;
    }
  }

  lemma CountersStep(s: System, e: Event)
    requires e.Start?
    ensures var t := Step(s, e).0;
      if e.caller in s.waiting then t == s
      else if e.qmiType == QMUX_TYPE_CTL then
        t.channel.qmux == s.channel.qmux && t.services == s.services &&
        t.channel.qctl == NextTid(s.channel.qctl, QCTL_TIDS) && t.controls == s.controls + 1
      else
        t.channel.qctl == s.channel.qctl && t.controls == s.controls &&
        t.channel.qmux == NextTid(s.channel.qmux, QMUX_TIDS) && t.services == s.services + 1
  {
    hide NextTid, Rewritten, Sendable;
  }

  lemma CountNext(counter: nat, composed: nat, last: nat)
    requires last == 65535 || last == 255
    requires counter == if composed == 0 then 0 else (composed - 1) % last + 1
    ensures last == 65535 ==> NextTid(counter, QMUX_TIDS) == composed % 65535 + 1
    ensures last == 255 ==> NextTid(counter, QCTL_TIDS) == composed % 255 + 1
  {
    if composed > 0 {
      if last == 65535 {
        NextServiceResidue(composed - 1);
      } else {
        NextControlResidue(composed - 1);
      }
    }
  }

  /** The header a request is composed with: its type, no client id yet, and the next transaction id. */
  lemma NextHeader(events: seq<Event>, qmiType: byte)
    ensures var s := Run(events);
      Composed(s.channel, qmiType).1 ==
      Header(qmiType, 0, if qmiType == 0 then s.controls % 255 + 1 else s.services % 65535 + 1)
  {
    hide Run, NextTid;
    IdsCount(events);
    var s := Run(events);
    CountNext(s.channel.qmux, s.services, QMUX_TIDS);
    CountNext(s.channel.qctl, s.controls, QCTL_TIDS);
  }

  /** A caller that nobody interferes with gets the response to its own request; messages that do not
      match it change nothing; a timeout, a lost device or a caller without use for it hand out nothing. */
  lemma Exchange(s: System, e: Event, other: Response, body: seq<byte>)
    requires e.Start? && e.caller !in s.waiting && e.writes
    requires Sendable(Composed(s.channel, e.qmiType).1, e.clientIds)
    ensures var own := Rewritten(Composed(s.channel, e.qmiType).1, e.clientIds);
      var s1 := Step(s, e).0;
      var answer := Response(own, body);
      var answered := Step(s1, Receive(Some(answer))).0;
      e.caller in s1.waiting && s1.waiting[e.caller].own == own &&
      (other.header != own ==> Step(s1, Receive(Some(other))).0 == s1) &&
      Step(answered, Resume(e.caller, false, true)).1 == Some(Handed(s1.waiting[e.caller], answer)) &&
      Step(answered, Resume(e.caller, false, false)).1 == None &&
      Step(answered, Resume(e.caller, true, true)).1 == None &&
      Step(Step(s1, Receive(None)).0, Resume(e.caller, false, true)).1 == None
  {
    hide Composed, Rewritten, Sendable;
  }

  /** A request that cannot be sent makes nobody wait. */
  lemma UnsentRequest(s: System, e: Event)
    requires e.Start? && e.caller !in s.waiting
    requires !e.writes || !Sendable(Composed(s.channel, e.qmiType).1, e.clientIds)
    ensures Step(s, e).0.waiting == s.waiting
  {
    hide Composed, Rewritten, Sendable;
  }
}
