/** The transaction ids of quectel_cm_5G/src/mbim-cm.c, the client side of the MBIM proxy: a 32-bit
    counter that is advanced when a request is composed and checked only when the request is sent. */
module MbimIds {

  /** Above this the proxy's tag would collide with the id. */
  const LAST_ID: nat := 0xFFFFFF

  const WIDTH: nat := 0x1_0000_0000

  /** One request: sent, or given up before the check in `mbim_send_command`. */
  datatype Fate = Checked | Dropped

  predicate InRange(id: nat) {
    1 <= id <= 0xFFFFFF
  }

  class Counter {
    var transactionId: nat

    constructor ()
      ensures transactionId == 1
    {
      transactionId := 1;
    }

    /** `compose_open_command`, `compose_close_command` and `compose_basic_connect_command`. */
    method Compose() returns (id: nat)
      modifies this
      ensures id == old(transactionId) && transactionId == (id + 1) % 0x1_0000_0000
    {
      id := transactionId;
      transactionId := (transactionId + 1) % WIDTH;
    }

    /** The wrap check; the id as it goes out. */
    method Send(composed: nat) returns (id: nat)
      modifies this
      ensures id == SentId(composed)
      ensures transactionId == if composed == LAST_ID + 1 then 2 else old(transactionId)
    {
      id := composed;
      if composed == LAST_ID + 1 {
        transactionId := 1;
        id := transactionId;
        transactionId := transactionId + 1;
      }
    }

    /** Requests made one after the other. */
    method Request(fate: Fate) returns (id: nat)
      modifies this
      ensures (id, transactionId) == Next(old(transactionId), fate)
    {
      id := Compose();
      if fate == Checked {
        id := Send(id);
      }
    }
  }

  function SentId(composed: nat): nat {
    if composed == LAST_ID + 1 then 1 else composed
  }

  /** The id a request ends up with, and the counter afterwards. */
  function Next(counter: nat, fate: Fate): (nat, nat) {
    if fate == Dropped then (counter, (counter + 1) % WIDTH)
    else (SentId(counter), if counter == LAST_ID + 1 then 2 else (counter + 1) % WIDTH)
  }

  function CounterAfter(fates: seq<Fate>): nat {
    if fates == [] then 1 else Next(CounterAfter(fates[..|fates| - 1]), fates[|fates| - 1]).1
  }

  /** The id with which the next request would be sent. */
  function NextSent(fates: seq<Fate>): nat {
    Next(CounterAfter(fates), Checked).0
  }

  /** Every request, sent or not, got past the place where the counter has to wrap only by being checked. */
  ghost predicate WrapIsChecked(fates: seq<Fate>) {
    forall n :: 0 <= n < |fates| && CounterAfter(fates[..n]) == LAST_ID + 1 ==> fates[n] == Checked
  }

  lemma NextOf(counter: nat)
    requires 1 <= counter <= LAST_ID + 1
    ensures counter <= LAST_ID ==> Next(counter, Checked) == (counter, counter + 1)
    ensures counter == LAST_ID + 1 ==> Next(counter, Checked) == (1, 2)
    ensures counter <= LAST_ID ==> Next(counter, Dropped).1 == counter + 1
  {
  }

  lemma OneMore(n: nat)
    ensures (n + 1) % LAST_ID == if n % LAST_ID == LAST_ID - 1 then 0 else n % LAST_ID + 1
  {
  }

  lemma {:induction false} CounterBounded(fates: seq<Fate>)
    requires WrapIsChecked(fates)
    ensures 1 <= CounterAfter(fates) <= LAST_ID + 1
    decreases |fates|
  {
    if fates != [] {
      var past := fates[..|fates| - 1];
      forall n | 0 <= n < |past| && CounterAfter(past[..n]) == LAST_ID + 1 ensures past[n] == Checked {
        assert past[..n] == fates[..n];
      }
      CounterBounded(past);
      assert fates[..|fates| - 1] == past;
      NextOf(CounterAfter(past));
      hide Next;
    }
  }

  /** The id with which a request would be sent is in range at every point of a run, its end included,
      exactly when no request composed at the wrap was dropped before its check. */
  lemma IdsStayInRange(fates: seq<Fate>)
    ensures WrapIsChecked(fates) <==> forall n :: 0 <= n <= |fates| ==> InRange(NextSent(fates[..n]))
  {
    hide CounterAfter, Next;
    if WrapIsChecked(fates) {
      forall n | 0 <= n <= |fates| ensures InRange(NextSent(fates[..n])) {
        forall k | 0 <= k < n && CounterAfter(fates[..n][..k]) == LAST_ID + 1 ensures fates[..n][k] == Checked {
          assert fates[..n][..k] == fates[..k];
        }
        CounterBounded(fates[..n]);
        NextOf(CounterAfter(fates[..n]));
      }
    } else {
      var n :| 0 <= n < |fates| && CounterAfter(fates[..n]) == LAST_ID + 1 && fates[n] == Dropped;
      DroppedAtWrap(fates, n);
      assert !InRange(NextSent(fates[..n + 1]));
    }
  }

  /** What was actually sent in such a run. */
  lemma SentIdsAreInRange(fates: seq<Fate>, n: nat)
    requires WrapIsChecked(fates) && n < |fates| && fates[n] == Checked
    ensures InRange(Next(CounterAfter(fates[..n]), fates[n]).0)
  {
    hide CounterAfter, Next;
    IdsStayInRange(fates);
    assert InRange(NextSent(fates[..n]));
  }

  lemma DroppedAtWrap(fates: seq<Fate>, n: nat)
    requires n < |fates| && CounterAfter(fates[..n]) == LAST_ID + 1 && fates[n] == Dropped
    ensures NextSent(fates[..n + 1]) == LAST_ID + 2
  {
    assert fates[..n + 1][..n] == fates[..n];
  }

  /** When every request is checked, the ids go round: the k-th is one more than k modulo 0xFFFFFF. */
  lemma {:induction false} CheckedIdsCycle(fates: seq<Fate>)
    requires forall f :: f in fates ==> f == Checked
    ensures NextSent(fates) == |fates| % 0xFFFFFF + 1
    ensures CounterAfter(fates) == |fates| % LAST_ID + 1 ||
            (CounterAfter(fates) == LAST_ID + 1 && |fates| % LAST_ID == 0)
    decreases |fates|
  {
    if fates != [] {
      var past := fates[..|fates| - 1];
      assert forall f :: f in past ==> f in fates;
      CheckedIdsCycle(past);
      assert fates[|fates| - 1] in fates;
      NextOf(CounterAfter(past));
      OneMore(|past|);
      hide Next;
    }
  }
}
