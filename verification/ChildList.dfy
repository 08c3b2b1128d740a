/** The child lists of ser2mqtt/src/cJSON.c: doubly linked, `next` ends in NULL, and the `prev` of the
    first child is the LAST child, so that appending needs no walk. Every operation is proved to be one
    edit of a sequence. */
module ChildList {
  import opened Bytes
  import opened JsonTree
  import JsonCompare

  /** Node `i` points to its neighbours, and the first one back to the last. */
  ghost predicate Node(c: seq<Item>, i: nat)
    requires i < |c|
    reads c
  {
    c[i].next == Next(c, i) && c[i].prev == Prev(c, i)
  }

  ghost function Next(c: seq<Item>, i: nat): Item?
    requires i < |c|
  {
    if i + 1 < |c| then c[i + 1] else null
  }

  ghost function Prev(c: seq<Item>, i: nat): Item?
    requires i < |c|
  {
    if i > 0 then c[i - 1] else c[|c| - 1]
  }

  ghost predicate Distinct<T>(c: seq<T>) {
    forall i, j :: 0 <= i < j < |c| ==> c[i] != c[j]
  }

  /** The nodes of `c`, in order, are linked as cJSON links a child list. */
  ghost predicate Linked(c: seq<Item>)
    reads c
  {
    Distinct(c) && forall i :: 0 <= i < |c| ==> Node(c, i)
  }

  /** What the nodes of a list stand for. */
  ghost function Values(c: seq<Item>): (r: seq<Json>)
    ensures |r| == |c|
  {
    seq(|c|, i requires 0 <= i < |c| => c[i].value)
  }

  ghost function Inserted<T>(c: seq<T>, k: nat, x: T): seq<T>
    requires k <= |c|
  {
    c[..k] + [x] + c[k..]
  }

  ghost function Removed<T>(c: seq<T>, k: nat): seq<T>
    requires k < |c|
  {
    c[..k] + c[k + 1..]
  }

  ghost function Index<T>(c: seq<T>, x: T): (k: nat)
    requires x in c
    ensures k < |c| && c[k] == x
  {
    if c[0] == x then 0 else 1 + Index(c[1..], x)
  }

  class Item {
    /** The type, value and name of the item together with everything below it. */
    const value: Json
    var next: Item?
    var prev: Item?
    var child: Item?
    ghost var children: seq<Item>

    constructor (value: Json)
      ensures this.value == value && next == null && prev == null && Valid() && children == []
    {
      this.value := value;
      next, prev, child, children := null, null, null, [];
    }

    ghost predicate Valid()
      reads this, children
    {
      child == (if children == [] then null else children[0]) && this !in children && Linked(children)
    }

    /** `item` is in no list and may be put into this one. */
    ghost predicate Loose(item: Item?)
      reads this, item
    {
      item != null ==> item !in children && item.next == null
    }

    // -------------------------------------------------------------- looking

    /** `get_array_item`. */
    method GetItem(index: nat) returns (r: Item?)
      requires Valid()
      ensures r == (if index < |children| then children[index] else null)
    {
      r := child;
      var left: nat := index;
      while r != null && left > 0
        invariant left <= index && index - left <= |children|
        invariant r == (if index - left < |children| then children[index - left] else null)
        invariant r == null <==> index - left == |children|
        decreases left
      {
        assert Node(children, index - left);
        left := left - 1;
        r := r.next;
      }
    }

    /** `cJSON_GetArraySize`. */
    method Size() returns (size: nat)
      requires Valid()
      ensures size == |children|
    {
      size := 0;
      var c := child;
      while c != null
        invariant size <= |children|
        invariant c == (if size < |children| then children[size] else null)
        decreases |children| - size
      {
        assert Node(children, size);
        size := size + 1;
        c := c.next;
      }
    }

    // -------------------------------------------------------------- changing

    /** `add_item_to_array`. */
    method Append(item: Item?) returns (ok: bool)
      requires Valid() && Loose(item)
      modifies `child, `children, children, item
      ensures Valid()
      ensures ok <==> item != null && item != this
      ensures children == if ok then old(children) + [item] else old(children)
    {
      if item == null || item == this {
        return false;
      }
      if child == null {
        child := item;
        item.prev := item;
        item.next := null;
      } else {
        assert Node(children, 0);
        var last := child.prev;
        if last != null {
          last.next := item;
          item.prev := last;
          child.prev := item;
        }
      }
      ghost var c := children;
      children := c + [item];
      forall i | 0 <= i < |children| ensures Node(children, i) {
        assert i < |c| ==> old(Node(c, i));
      }
      return true;
    }

    /** `cJSON_InsertItemInArray`: past the end it appends. */
    method Insert(which: int, item: Item?) returns (ok: bool)
      requires Valid() && Loose(item)
      modifies `child, `children, children, item
      ensures item != this ==> Valid()
      ensures which < 0 || item == null ==> !ok
      ensures !ok ==> children == old(children) && Valid()
      ensures which >= 0 && item != null && item != this ==> ok
      ensures ok && item != this ==>
                children == Inserted(old(children), if which < |old(children)| then which else |old(children)|, item)
    {
      if which < 0 || item == null {
        return false;
      }
      var after := GetItem(which);
      if after == null {
        ok := Append(item);
        return;
      }
      assert Node(children, which);
      if after != child && after.prev == null {
        return false;
      }
      ghost var c := children;
      assert after == c[which] && Node(c, which);
      item.next := after;
      item.prev := after.prev;
      after.prev := item;
      if after == child {
        child := item;
      } else {
        item.prev.next := item;
      }
      children := Inserted(c, which, item);
      forall j | 0 <= j < |c| ensures Parted(c, which, item, j) {
        assert old(Node(c, j));
      }
      Spliced(c, which, item);
      return true;
    }

    /** `cJSON_DetachItemViaPointer`: refuses an item that is in no list. */
    method Detach(item: Item?) returns (r: Item?)
      requires Valid()
      requires item != null ==> item in children || item.prev == null
      modifies `child, `children, children
      ensures Valid()
      ensures r == (if item != null && item in old(children) then item else null)
      ensures r == null ==> children == old(children)
      ensures r != null ==> r.next == null && r.prev == null
      ensures r != null ==> children == Removed(old(children), Index(old(children), r))
    {
      hide Index;
      ghost var c := children;
      ghost var k := if item != null && item in c then Index(c, item) else 0;
      assert item != null && item in c ==> Node(c, k);
      if item == null || (item != child && item.prev == null) {
        return null;
      }
      if item != child {
        item.prev.next := item.next;
      }
      if item.next != null {
        item.next.prev := item.prev;
      }
      if item == child {
        child := item.next;
      } else if item.next == null {
        child.prev := item.prev;
      }
      item.prev := null;
      item.next := null;
      children := Removed(c, k);
      forall j | 0 <= j < |c| && j != k ensures Bridged(c, k, j) {
        assert old(Node(c, j));
      }
      Unlinked(c, k);
      return item;
    }

    /** `cJSON_DetachItemFromArray`. */
    method DetachAt(which: int) returns (r: Item?)
      requires Valid()
      modifies `child, `children, children
      ensures Valid()
      ensures r == (if 0 <= which < |old(children)| then old(children)[which] else null)
      ensures children == if 0 <= which < |old(children)| then Removed(old(children), which) else old(children)
    {
      if which < 0 {
        return null;
      }
      var item := GetItem(which);
      r := Detach(item);
    }

    /** `cJSON_ReplaceItemViaPointer`. */
    method Replace(item: Item?, replacement: Item?) returns (ok: bool)
      requires Valid()
      requires item != null ==> children == [] || item in children
      requires replacement != null && replacement != item ==> replacement !in children && replacement != this
      modifies `child, `children, children, replacement
      ensures Valid()
      ensures ok <==> old(children) != [] && item != null && replacement != null
      ensures !ok || replacement == item ==> children == old(children)
      ensures ok && replacement != item ==> item.next == null && item.prev == null
      ensures ok && replacement != item ==> children == old(children)[Index(old(children), item) := replacement]
    {
      if child == null || replacement == null || item == null {
        return false;
      }
      if replacement == item {
        return true;
      }
      ghost var c := children;
      ghost var k := Index(c, item);
      assert item == c[k] && child == c[0] && Node(c, k);
      replacement.next := item.next;
      replacement.prev := item.prev;
      if replacement.next != null {
        replacement.next.prev := replacement;
      }
      if child == item {
        if child.prev == child {
          replacement.prev := replacement;
        }
        child := replacement;
      } else {
        if replacement.prev != null {
          replacement.prev.next := replacement;
        }
        if replacement.next == null {
          child.prev := replacement;
        }
      }
      item.next := null;
      item.prev := null;
      children := c[k := replacement];
      forall i | 0 <= i < |children| ensures Node(children, i) {
        assert old(Node(c, i));
      }
      return true;
    }

    /** `cJSON_ReplaceItemInArray`. */
    method ReplaceAt(which: int, replacement: Item?) returns (ok: bool)
      requires Valid()
      requires replacement != null ==> replacement !in children && replacement != this
      modifies `child, `children, children, replacement
      ensures Valid()
      ensures ok <==> 0 <= which < |old(children)| && replacement != null
      ensures children == if ok then old(children)[which := replacement] else old(children)
    {
      if which < 0 {
        return false;
      }
      var item := GetItem(which);
      ok := Replace(item, replacement);
    }

    // -------------------------------------------------------------- building

    /** How `parse_array` and `parse_object` hang the items they parse, one after the other, below a new
        item; `values` are the values in the order of the text. */
    method BuildByParse(values: seq<Json>)
      requires Valid() && children == []
      modifies `child, `children
      ensures Valid() && fresh(children)
      ensures Values(children) == values
    {
      var head: Item? := null;
      var current: Item? := null;
      ghost var c: seq<Item> := [];
      for i := 0 to |values|
        invariant |c| == i && fresh(c) && Values(c) == values[..i]
        invariant Chain(c, head, current)
      {
        var item := new Item(values[i]);
        head := Hang(c, head, current, item);
        current := item;
        c := c + [item];
        assert values[..i + 1] == values[..i] + [values[i]];
      }
      label Built:
      if head != null {
        head.prev := current;
      }
      child := head;
      children := c;
      forall k | 0 <= k < |c| ensures Node(c, k) {
        assert old@Built(Half(c, k));
      }
    }
  }

  /** A list under construction: everything but the `prev` of the first node. */
  ghost predicate Chain(c: seq<Item>, head: Item?, last: Item?)
    reads c
  {
    head == (if c == [] then null else c[0]) && last == (if c == [] then null else c[|c| - 1]) &&
    Distinct(c) && forall i :: 0 <= i < |c| ==> Half(c, i)
  }

  /** One more item behind the last one: the `next` of the last one and the `prev` of the new one. */
  method Hang(ghost c: seq<Item>, head: Item?, last: Item?, item: Item) returns (first: Item)
    requires Chain(c, head, last) && item !in c && item.next == null
    modifies last, item
    ensures Chain(c + [item], first, item)
  {
    ghost var d := c + [item];
    first := item;
    if last != null {
      last.next := item;
      item.prev := last;
      first := head;
    }
    forall k | 0 <= k < |d| ensures Half(d, k) {
      assert k < |c| ==> old(Half(c, k));
    }
  }

  ghost predicate Half(c: seq<Item>, i: nat)
    requires i < |c|
    reads c
  {
    c[i].next == (if i + 1 < |c| then c[i + 1] else null) && (i > 0 ==> c[i].prev == c[i - 1])
  }

  /** `cJSON_Duplicate_rec` on the child list of `source`: `depth` is that of `source`, and the copy of a
      child together with what lies below it is the recursive call. */
  method BuildByDuplicate(source: Item, target: Item, depth: nat) returns (ok: bool)
    requires source.Valid() && target.Valid() && target.children == []
    requires target != source && target !in source.children
    modifies target`child, target`children
    ensures var copies := JsonCompare.DuplicateItems(Values(source.children), depth);
      (ok <==> copies.Some?) &&
      (ok ==> target.Valid() && fresh(target.children) && Values(target.children) == copies.value)
    ensures !ok ==> target.Valid() && target.children == []
  {
    hide JsonCompare.Duplicate, JsonCompare.DuplicateItems, Joined;
    var head: Item? := null;
    var last: Item? := null;
    var from := source.child;
    ghost var c: seq<Item> := [];
    ghost var kids := source.children;
    ghost var all := Values(kids);
    NothingJoined(all, depth);
    while from != null
      invariant |c| <= |source.children| && fresh(c)
      invariant source.Valid() && source.children == kids && target.Valid() && target.children == []
      invariant from == (if |c| < |source.children| then source.children[|c|] else null)
      invariant Chain(c, head, last)
      invariant JsonCompare.DuplicateItems(all, depth) ==
                Joined(Values(c), JsonCompare.DuplicateItems(all[|c|..], depth))
      decreases |source.children| - |c|
    {
      if depth >= JsonCompare.CIRCULAR_LIMIT {
        TooDeep(Values(c), all, depth);
        return false;
      }
      assert Node(source.children, |c|);
      var copy := JsonCompare.Duplicate(from.value, depth + 1, true);
      OneMoreJoined(Values(c), all, depth);
      if copy.None? {
        return false;
      }
      var item := new Item(copy.value);
      assert Values(c + [item]) == Values(c) + [copy.value];
      head := Hang(c, head, last, item);
      last := item;
      c := c + [item];
      from := from.next;
    }
    label Built:
    JoinedAll(Values(c), all, depth);
    target.child := head;
    target.children := c;
    if head != null {
      head.prev := last;
    }
    forall k | 0 <= k < |c| ensures Node(c, k) {
      assert old@Built(Half(c, k));
    }
    return true;
  }

  /** The copies made so far in front of those still to come. */
  ghost function Joined(done: seq<Json>, rest: Option<seq<Json>>): Option<seq<Json>> {
    if rest.None? then None else Some(done + rest.value)
  }

  lemma NothingJoined(all: seq<Json>, depth: nat)
    ensures JsonCompare.DuplicateItems(all, depth) == Joined([], JsonCompare.DuplicateItems(all[0..], depth))
  {
    hide JsonCompare.DuplicateItems;
    var rest := JsonCompare.DuplicateItems(all, depth);
    assert all[0..] == all;
    if rest.Some? {
      assert [] + rest.value == rest.value;
    }
  }

  lemma JoinedAll(done: seq<Json>, all: seq<Json>, depth: nat)
    requires |done| == |all|
    ensures Joined(done, JsonCompare.DuplicateItems(all[|done|..], depth)) == Some(done)
  {
    assert all[|done|..] == [];
    assert done + [] == done;
  }

  lemma TooDeep(done: seq<Json>, all: seq<Json>, depth: nat)
    requires |done| < |all| && depth >= JsonCompare.CIRCULAR_LIMIT
    ensures Joined(done, JsonCompare.DuplicateItems(all[|done|..], depth)) == None
  {
  }

  lemma OneMoreJoined(done: seq<Json>, all: seq<Json>, depth: nat)
    requires |done| < |all| && depth < JsonCompare.CIRCULAR_LIMIT
    ensures var k := |done|;
      var copy := JsonCompare.Duplicate(all[k], depth + 1, true);
      Joined(done, JsonCompare.DuplicateItems(all[k..], depth)) ==
      if copy.None? then None
      else Joined(done + [copy.value], JsonCompare.DuplicateItems(all[k + 1..], depth))
  {
    hide JsonCompare.Duplicate;
    var k := |done|;
    assert all[k..][1..] == all[k + 1..];
    var copy := JsonCompare.Duplicate(all[k], depth + 1, true);
    var rest := JsonCompare.DuplicateItems(all[k + 1..], depth);
    if copy.Some? && rest.Some? {
      assert done + ([copy.value] + rest.value) == done + [copy.value] + rest.value;
    }
  }

  // ---------------------------------------------------------------- taking a node out

  /** The pointers of node `j` when its neighbour `k` has been bridged. */
  ghost predicate Bridged(c: seq<Item>, k: nat, j: nat)
    requires k < |c| && j < |c|
    reads c
  {
    c[j].next == (if j + 1 == k then Next(c, k) else Next(c, j)) &&
    c[j].prev == (if j == k + 1 || (j == 0 && k + 1 == |c|) then Prev(c, k) else Prev(c, j))
  }

  lemma Unlinked(c: seq<Item>, k: nat)
    requires Distinct(c) && k < |c|
    requires forall j :: 0 <= j < |c| && j != k ==> Bridged(c, k, j)
    ensures Linked(Removed(c, k))
  {
    var d := Removed(c, k);
    forall i | 0 <= i < |d| ensures Node(d, i) {
      UnlinkedNode(c, k, i);
    }
    hide Node;
    RemovedDistinct(c, k);
  }

  lemma RemovedDistinct<T>(c: seq<T>, k: nat)
    requires Distinct(c) && k < |c|
    ensures Distinct(Removed(c, k))
  {
    var d := Removed(c, k);
    forall i, j | 0 <= i < j < |d| ensures d[i] != d[j] {
      assert d[i] == c[if i < k then i else i + 1];
      assert d[j] == c[if j < k then j else j + 1];
    }
  }

  lemma UnlinkedNode(c: seq<Item>, k: nat, i: nat)
    requires k < |c| && i < |c| - 1
    requires Bridged(c, k, if i < k then i else i + 1)
    ensures Node(Removed(c, k), i)
  {
    var d := Removed(c, k);
    assert d[i] == c[if i < k then i else i + 1];
    assert i + 1 < |d| ==> d[i + 1] == c[if i + 1 < k then i + 1 else i + 2];
    assert i > 0 ==> d[i - 1] == c[if i - 1 < k then i - 1 else i];
    assert d[|d| - 1] == c[if k + 1 == |c| then k - 1 else |c| - 1];
  }

  // ---------------------------------------------------------------- putting a node in

  /** The pointers of node `j` when `x` has been put in front of node `k`. */
  ghost predicate Parted(c: seq<Item>, k: nat, x: Item, j: nat)
    requires k < |c| && j < |c|
    reads c
  {
    c[j].next == (if j + 1 == k then x else Next(c, j)) && c[j].prev == (if j == k then x else Prev(c, j))
  }

  lemma Spliced(c: seq<Item>, k: nat, x: Item)
    requires Distinct(c) && x !in c && k < |c|
    requires x.next == c[k] && x.prev == Prev(c, k)
    requires forall j :: 0 <= j < |c| ==> Parted(c, k, x, j)
    ensures Linked(Inserted(c, k, x))
  {
    hide Parted, Node, Prev;
    var d := Inserted(c, k, x);
    forall i | 0 <= i < |d| ensures Node(d, i) {
      assert i < k ==> Parted(c, k, x, i);
      assert i > k ==> Parted(c, k, x, i - 1);
      SplicedNode(c, k, x, i);
    }
    InsertedDistinct(c, k, x);
  }

  lemma InsertedDistinct<T>(c: seq<T>, k: nat, x: T)
    requires Distinct(c) && x !in c && k <= |c|
    ensures Distinct(Inserted(c, k, x))
  {
    var d := Inserted(c, k, x);
    forall i, j | 0 <= i < j < |d| ensures d[i] != d[j] {
      assert i != k ==> d[i] in c;
    }
  }

  lemma SplicedNode(c: seq<Item>, k: nat, x: Item, i: nat)
    requires k < |c| && i < |c| + 1
    requires x.next == c[k] && x.prev == Prev(c, k)
    requires i < k ==> Parted(c, k, x, i)
    requires i > k ==> Parted(c, k, x, i - 1)
    ensures Node(Inserted(c, k, x), i)
  {
    var d := Inserted(c, k, x);
    assert d[i] == if i < k then c[i] else if i == k then x else c[i - 1];
    assert i + 1 < |d| ==> d[i + 1] == if i + 1 < k then c[i + 1] else if i + 1 == k then x else c[i];
    assert i > 0 ==> d[i - 1] == if i - 1 < k then c[i - 1] else if i - 1 == k then x else c[i - 2];
    assert d[|d| - 1] == c[|c| - 1];
  }

  // ---------------------------------------------------------------- edits undo each other

  lemma {:induction false} IndexIsUnique<T>(c: seq<T>, k: nat)
    requires k < |c| && Distinct(c)
    ensures Index(c, c[k]) == k
  {
    var j := Index(c, c[k]);
    assert c[j] == c[k];
  }

  /** Detaching what was just inserted restores the list, wherever it was put. */
  lemma DetachUndoesInsert<T>(c: seq<T>, k: nat, x: T)
    requires k <= |c| && x !in c && Distinct(c)
    ensures Index(Inserted(c, k, x), x) == k
    ensures Removed(Inserted(c, k, x), Index(Inserted(c, k, x), x)) == c
  {
    InsertedDistinct(c, k, x);
    IndexIsUnique(Inserted(c, k, x), k);
  }
}
