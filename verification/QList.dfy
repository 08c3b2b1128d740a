/** quectel_cm_5G/src/qlist.h: circular doubly linked lists with the list head as one of the nodes.
    The proxies keep their connections, clients and queued messages in such lists; their models use
    the sequences that this module shows the lists to stand for. */
module QList {

  class ListNode {
    var next: ListNode?
    var prev: ListNode?

    /** Neither field is set before `qlist_init` or `qlist_add_tail`. */
    constructor () {
    }
  }

  ghost predicate Distinct<T>(c: seq<T>) {
    forall i, j :: 0 <= i < j < |c| ==> c[i] != c[j]
  }

  /** Node `i` of the ring points to both neighbours, the ends to each other. */
  ghost predicate Link(c: seq<ListNode>, i: nat)
    requires i < |c|
    reads c
  {
    c[i].next == c[After(|c|, i)] && c[i].prev == c[Before(|c|, i)]
  }

  /** `head` heads a list that holds `items`, in this order. */
  ghost predicate Holds(head: ListNode, items: seq<ListNode>)
    reads head, items
  {
    Ring([head] + items)
  }

  ghost predicate Ring(c: seq<ListNode>)
    reads c
  {
    Distinct(c) && forall i :: 0 <= i < |c| ==> Link(c, i)
  }

  method Init(node: ListNode)
    modifies node
    ensures Holds(node, [])
  {
    node.next := node;
    node.prev := node;
    assert [node] + [] == [node];
    assert Link([node], 0);
  }

  method AddTail(head: ListNode, item: ListNode, ghost items: seq<ListNode>)
    requires Holds(head, items) && item != head && item !in items
    modifies head, items, item
    ensures Holds(head, items + [item])
  {
    ghost var c := [head] + items;
    assert Link(c, 0);
    item.next := head;
    item.prev := head.prev;
    head.prev.next := item;
    head.prev := item;
    ghost var d := c + [item];
    forall i | 0 <= i < |d| ensures Link(d, i) {
      assert i < |c| ==> old(Link(c, i));
    }
    assert d == [head] + (items + [item]);
  }

  /** `qlist_remove` is given the node only; the list it is in loses exactly that node. */
  method Remove(item: ListNode, ghost head: ListNode, ghost items: seq<ListNode>, ghost k: nat)
    requires Holds(head, items) && k < |items| && items[k] == item
    modifies head, items
    ensures Holds(head, items[..k] + items[k + 1..])
    ensures item.next == old(item.next) && item.prev == old(item.prev)
  {
    hide Bridged;
    ghost var c := [head] + items;
    ghost var m := k + 1;
    assert c[m] == item && Link(c, m);
    ghost var p, q := Before(|c|, m), After(|c|, m);
    item.next.prev := item.prev;
    item.prev.next := item.next;
    forall j | 0 <= j < |c| && j != m ensures Bridged(c, m, j) {
      assert old(Link(c, j));
      assert c[j] == c[p] <==> j == p;
      assert c[j] == c[q] <==> j == q;
      JoinedIsBridged(c, m, j);
    }
    Bridge(c, m);
    assert c[..m] + c[m + 1..] == [head] + (items[..k] + items[k + 1..]);
  }

  /** `qlist_empty`, and the walk of `qlist_for_each`, which must end at the head. */
  method Length(head: ListNode, ghost items: seq<ListNode>) returns (n: nat)
    requires Holds(head, items)
    ensures n == |items|
    ensures head.next == head <==> items == []
  {
    ghost var c := [head] + items;
    assert Link(c, 0);
    assert items != [] ==> c[1] == items[0] && c[0] != c[1];
    n := 0;
    var node := head.next;
    while node != head
      invariant n <= |items|
      invariant node == (if n < |items| then items[n] else head)
      invariant node == head <==> n == |items|
      decreases |items| - n
    {
      assert c[n + 1] == node && Link(c, n + 1);
      assert n + 1 < |items| ==> c[n + 2] == items[n + 1] && c[0] != c[n + 2];
      node := node.next;
      n := n + 1;
    }
  }

  ghost predicate Bridged(c: seq<ListNode>, k: nat, j: nat)
    requires k < |c| && j < |c|
    reads c
  {
    c[j].next == c[After(|c|, if After(|c|, j) == k then k else j)] &&
    c[j].prev == c[Before(|c|, if Before(|c|, j) == k then k else j)]
  }

  ghost function After(n: nat, i: nat): nat
    requires i < n
  {
    if i + 1 < n then i + 1 else 0
  }

  ghost function Before(n: nat, i: nat): nat
    requires i < n
  {
    if i > 0 then i - 1 else n - 1
  }

  lemma JoinedIsBridged(c: seq<ListNode>, k: nat, j: nat)
    requires k < |c| && j < |c| && j != k
    requires c[j].next == c[if j == Before(|c|, k) then After(|c|, k) else After(|c|, j)]
    requires c[j].prev == c[if j == After(|c|, k) then Before(|c|, k) else Before(|c|, j)]
    ensures Bridged(c, k, j)
  {
  }

  lemma Bridge(c: seq<ListNode>, k: nat)
    requires Distinct(c) && 0 < k < |c|
    requires forall j :: 0 <= j < |c| && j != k ==> Bridged(c, k, j)
    ensures Ring(c[..k] + c[k + 1..])
  {
    hide Link, Bridged;
    var d := c[..k] + c[k + 1..];
    forall i, j | 0 <= i < j < |d| ensures d[i] != d[j] {
      assert d[i] == c[if i < k then i else i + 1];
      assert d[j] == c[if j < k then j else j + 1];
    }
    forall i | 0 <= i < |d| ensures Link(d, i) {
      BridgeNode(c, k, i);
    }
  }

  lemma BridgeNode(c: seq<ListNode>, k: nat, i: nat)
    requires 0 < k < |c| && i < |c| - 1
    requires Bridged(c, k, if i < k then i else i + 1)
    ensures Link(c[..k] + c[k + 1..], i)
  {
    var d := c[..k] + c[k + 1..];
    assert d[i] == c[if i < k then i else i + 1];
    assert i + 1 < |d| ==> d[i + 1] == c[if i + 1 < k then i + 1 else i + 2];
    assert i > 0 ==> d[i - 1] == c[if i - 1 < k then i - 1 else i];
    assert d[0] == c[0];
    assert d[|d| - 1] == c[if k + 1 == |c| then k - 1 else |c| - 1];
  }
}
