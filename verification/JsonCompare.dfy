/** `cJSON_Compare` (case-sensitive) and `cJSON_Duplicate`. Both only read their arguments and recurse.

    What comparison is for is stated through `Denote`: the value a tree stands for, with lists for
    arrays and finite maps for objects. */
module JsonCompare {
  import opened Bytes
  import opened JsonTree

  /** `DBL_EPSILON`, which is 2 to the power -52. */
  const EPSILON: real := 1.0 / 4503599627370496.0

  function Abs(x: real): real {
    if x < 0.0 then -x else x
  }

  predicate CompareDouble(a: real, b: real) {
    var maxVal := if Abs(a) > Abs(b) then Abs(a) else Abs(b);
    Abs(a - b) <= maxVal * EPSILON
  }

  /** `get_object_item`: the first member whose key is the same C string. */
  function Find(members: seq<Member>, name: seq<byte>): (r: Option<Member>)
    ensures r.Some? ==> r.value in members && CString(r.value.key) == CString(name)
    ensures r.Some? ==> Nesting(r.value.value) <= NestingOfMembers(members)
    ensures r.None? ==> forall m :: m in members ==> CString(m.key) != CString(name)
  {
    if members == [] then None
    else if CString(members[0].key) == CString(name) then Some(members[0])
    else Find(members[1..], name)
  }

  /** Two trees held in different items. */
  predicate Compare(a: Json, b: Json)
    decreases Nesting(a) + Nesting(b), 0, 0
  {
    match (a, b)
    case (Null, Null) => true
    case (False, False) => true
    case (True, True) => true
    case (Number(d), Number(e)) => CompareDouble(d, e)
    case (String(s), String(t)) => CString(s) == CString(t)
    case (Array(xs), Array(ys)) => CompareItems(xs, ys)
    case (Object(xs), Object(ys)) => EachIsFound(xs, ys) && EachIsFound(ys, xs)
    case _ => false
  }

  predicate CompareItems(xs: seq<Json>, ys: seq<Json>)
    decreases NestingOfItems(xs) + NestingOfItems(ys), 1, |xs|
  {
    if xs == [] || ys == [] then xs == ys
    else Compare(xs[0], ys[0]) && CompareItems(xs[1..], ys[1..])
  }

  /** Each of `xs` has a partner in `ys`, the first one of that name, and compares equal to it. */
  predicate EachIsFound(xs: seq<Member>, ys: seq<Member>)
    decreases NestingOfMembers(xs) + NestingOfMembers(ys), 1, |xs|
  {
    xs == [] ||
    (var found := Find(ys, xs[0].key);
     found.Some? && Compare(xs[0].value, found.value.value) && EachIsFound(xs[1..], ys))
  }

  // ---------------------------------------------------------------- what a tree stands for

  datatype Value =
    | NullValue
    | Bool(b: bool)
    | Num(d: real)
    | Text(s: seq<byte>)
    | List(items: seq<Value>)
    | Map(members: map<seq<byte>, Value>)

  function Denote(v: Json): Value
    decreases v, 0
  {
    match v
    case Null => NullValue
    case False => Bool(false)
    case True => Bool(true)
    case Number(d) => Num(d)
    case String(s) => Text(CString(s))
    case Array(items) => List(DenoteItems(items))
    case Object(members) => Map(DenoteMembers(members))
  }

  function DenoteItems(items: seq<Json>): (r: seq<Value>)
    decreases items
  {
    if items == [] then [] else [Denote(items[0])] + DenoteItems(items[1..])
  }

  /** A name stands for its first member. */
  function DenoteMembers(members: seq<Member>): (r: map<seq<byte>, Value>)
    decreases members
  {
    if members == [] then map[]
    else DenoteMembers(members[1..])[CString(members[0].key) := Denote(members[0].value)]
  }

  /** Members that share a name, in any object of the tree, stand for the same value. */
  ghost predicate Coherent(v: Json)
    decreases v, 0
  {
    match v
    case Array(items) => forall i :: 0 <= i < |items| ==> Coherent(items[i])
    case Object(members) => CoherentMembers(members)
    case _ => true
  }

  ghost predicate CoherentMembers(members: seq<Member>)
    decreases members
  {
    (forall i :: 0 <= i < |members| ==> Coherent(members[i].value)) && Agreeing(members)
  }

  ghost predicate Agreeing(members: seq<Member>) {
    forall i :: 0 <= i < |members| ==>
      CString(members[i].key) in DenoteMembers(members) &&
      DenoteMembers(members)[CString(members[i].key)] == Denote(members[i].value)
  }

  /** The usual case: no object of the tree uses a name twice. */
  ghost predicate DistinctKeys(v: Json)
    decreases v, 0
  {
    match v
    case Array(items) => forall i :: 0 <= i < |items| ==> DistinctKeys(items[i])
    case Object(members) => DistinctMembers(members)
    case _ => true
  }

  ghost predicate DistinctMembers(members: seq<Member>)
    decreases members
  {
    (forall i :: 0 <= i < |members| ==> DistinctKeys(members[i].value)) &&
    (forall i, j :: 0 <= i < j < |members| ==> CString(members[i].key) != CString(members[j].key))
  }

  ghost predicate Int32Numbers(v: Json)
    decreases v, 0
  {
    match v
    case Number(d) => IsInt32(d)
    case Array(items) => forall i :: 0 <= i < |items| ==> Int32Numbers(items[i])
    case Object(members) => Int32Members(members)
    case _ => true
  }

  ghost predicate Int32Members(members: seq<Member>)
    decreases members
  {
    forall i :: 0 <= i < |members| ==> Int32Numbers(members[i].value)
  }

  // ---------------------------------------------------------------- lookup

  /** The map has exactly the names that lookup finds, each with the value of the member found. */
  lemma {:induction false} FindDenotes(members: seq<Member>, name: seq<byte>)
    ensures Find(members, name).Some? <==> CString(name) in DenoteMembers(members)
    ensures Find(members, name).Some? ==>
              DenoteMembers(members)[CString(name)] == Denote(Find(members, name).value.value)
    decreases members
  {
    if members != [] {
      FindDenotes(members[1..], name);
    }
  }

  lemma {:induction false} NamesAreKeys(members: seq<Member>, i: nat)
    requires i < |members|
    ensures CString(members[i].key) in DenoteMembers(members)
    decreases members
  {
    if i > 0 {
      NamesAreKeys(members[1..], i - 1);
    }
  }

  lemma {:induction false} KeyHasName(members: seq<Member>, key: seq<byte>) returns (i: nat)
    requires key in DenoteMembers(members)
    ensures i < |members| && CString(members[i].key) == key
    decreases members
  {
    if key == CString(members[0].key) {
      i := 0;
    } else {
      var j := KeyHasName(members[1..], key);
      i := j + 1;
    }
  }

  /** Two doubles count as equal if and only if they lie within 2 to the power -52 of one of them. */
  lemma EpsilonIs(a: real, b: real)
    ensures CompareDouble(a, b) <==>
            (-a <= (a - b) * 4503599627370496.0 <= a || a <= (a - b) * 4503599627370496.0 <= -a ||
             -b <= (a - b) * 4503599627370496.0 <= b || b <= (a - b) * 4503599627370496.0 <= -b)
  {
    Scale(Abs(a - b), if Abs(a) > Abs(b) then Abs(a) else Abs(b));
  }

  lemma Scale(d: real, m: real)
    ensures d <= m * EPSILON <==> d * 4503599627370496.0 <= m
  {
    assert m * EPSILON * 4503599627370496.0 == m;
  }

  // ---------------------------------------------------------------- the comparison is equality

  lemma Int32Compare(a: real, b: real)
    requires IsInt32(a) && IsInt32(b)
    ensures CompareDouble(a, b) <==> a == b
  {
    var m := if Abs(a) > Abs(b) then Abs(a) else Abs(b);
    assert 0.0 <= m <= 2147483648.0;
    assert m * EPSILON <= 0.5;
    if a != b {
      var d: int := a.Floor - b.Floor;
      assert a - b == d as real;
      assert Abs(a - b) >= 1.0;
    }
  }

  /** Comparison of trees with int32 numbers is equality of the values they stand for, and fails in
      addition exactly when one of them is incoherent. */
  lemma {:induction false} CompareIsEquality(a: Json, b: Json)
    requires Int32Numbers(a) && Int32Numbers(b)
    ensures Compare(a, b) <==> Coherent(a) && Coherent(b) && Denote(a) == Denote(b)
    decreases Nesting(a) + Nesting(b), 0, 0
  {
    hide CompareDouble, EachIsFound, CompareItems, CoherentMembers, DenoteMembers, DenoteItems, Int32Members, CString,
         IsInt32;
    hide NestingOfItems, NestingOfMembers;
    match (a, b)
    case (Number(d), Number(e)) => Int32Compare(d, e);
    case (Array(xs), Array(ys)) => ItemsCompare(xs, ys);
    case (Object(xs), Object(ys)) =>
      MembersCompare(xs, ys);
    case _ =>
  }

  lemma {:induction false} ItemsCompare(xs: seq<Json>, ys: seq<Json>)
    requires forall i :: 0 <= i < |xs| ==> Int32Numbers(xs[i])
    requires forall i :: 0 <= i < |ys| ==> Int32Numbers(ys[i])
    ensures CompareItems(xs, ys) <==>
            Coherent(Array(xs)) && Coherent(Array(ys)) && DenoteItems(xs) == DenoteItems(ys)
    decreases NestingOfItems(xs) + NestingOfItems(ys), 1, |xs|
  {
    hide Compare, Denote, Int32Numbers;
    if xs != [] && ys != [] {
      CompareIsEquality(xs[0], ys[0]);
      ItemsCompare(xs[1..], ys[1..]);
      CoherentStep(xs);
      CoherentStep(ys);
      var p, q := DenoteItems(xs), DenoteItems(ys);
      assert p[0] == Denote(xs[0]) && p[1..] == DenoteItems(xs[1..]);
      assert q[0] == Denote(ys[0]) && q[1..] == DenoteItems(ys[1..]);
      assert p == [p[0]] + p[1..] && q == [q[0]] + q[1..];
    }
  }

  lemma CoherentStep(xs: seq<Json>)
    requires xs != []
    ensures Coherent(Array(xs)) <==> Coherent(xs[0]) && Coherent(Array(xs[1..]))
  {
    if Coherent(xs[0]) && Coherent(Array(xs[1..])) {
      forall i | 0 <= i < |xs| ensures Coherent(xs[i]) {
        if i > 0 {
          assert xs[i] == xs[1..][i - 1];
        }
      }
    }
    if Coherent(Array(xs)) {
      forall i | 0 <= i < |xs[1..]| ensures Coherent(xs[1..][i]) {
        assert xs[1..][i] == xs[i + 1];
      }
    }
  }

  /** One direction of the two searches, member by member. */
  ghost predicate Matches(xs: seq<Member>, ys: seq<Member>) {
    forall i :: 0 <= i < |xs| ==>
      CString(xs[i].key) in DenoteMembers(ys) && Coherent(xs[i].value) &&
      Denote(xs[i].value) == DenoteMembers(ys)[CString(xs[i].key)]
  }

  /** What the search established about the partner of each member. */
  ghost predicate PartnersCoherent(xs: seq<Member>, ys: seq<Member>) {
    forall i :: 0 <= i < |xs| ==>
      Find(ys, xs[i].key).Some? ==> Coherent(Find(ys, xs[i].key).value.value)
  }

  lemma {:induction false} SearchMatches(xs: seq<Member>, ys: seq<Member>)
    requires Int32Members(xs) && Int32Members(ys)
    ensures EachIsFound(xs, ys) <==> Matches(xs, ys) && PartnersCoherent(xs, ys)
    decreases NestingOfMembers(xs) + NestingOfMembers(ys), 1, |xs|
  {
    hide Compare, Denote, Int32Numbers, Coherent, DenoteMembers, CString;
    if xs != [] {
      var found := Find(ys, xs[0].key);
      FindDenotes(ys, xs[0].key);
      if found.Some? {
        var k :| 0 <= k < |ys| && ys[k] == found.value;
        assert Int32Numbers(ys[k].value);
        CompareIsEquality(xs[0].value, found.value.value);
      }
      SearchMatches(xs[1..], ys);
      MatchesStep(xs, ys);
    }
  }

  lemma MatchesStep(xs: seq<Member>, ys: seq<Member>)
    requires xs != []
    ensures Matches(xs, ys) && PartnersCoherent(xs, ys) <==>
            Matches(xs[..1], ys) && PartnersCoherent(xs[..1], ys) &&
            Matches(xs[1..], ys) && PartnersCoherent(xs[1..], ys)
  {
    hide Denote, Coherent, DenoteMembers, CString;
    forall i | 1 <= i < |xs| ensures xs[i] == xs[1..][i - 1] {
    }
    assert xs[..1] == [xs[0]];
    assert xs == xs[..1] + xs[1..];
  }

  lemma {:induction false} MembersCompare(xs: seq<Member>, ys: seq<Member>)
    requires Int32Members(xs) && Int32Members(ys)
    ensures EachIsFound(xs, ys) && EachIsFound(ys, xs) <==>
            CoherentMembers(xs) && CoherentMembers(ys) && DenoteMembers(xs) == DenoteMembers(ys)
    decreases NestingOfMembers(xs) + NestingOfMembers(ys), 2
  {
    hide EachIsFound, Matches, PartnersCoherent, CoherentMembers, DenoteMembers;
    SearchMatches(xs, ys);
    SearchMatches(ys, xs);
    if Matches(xs, ys) && Matches(ys, xs) {
      MatchedMapsAgree(xs, ys);
    }
    if CoherentMembers(xs) && CoherentMembers(ys) && DenoteMembers(xs) == DenoteMembers(ys) {
      AgreementMatches(xs, ys);
      AgreementMatches(ys, xs);
    }
  }

  lemma AgreementMatches(xs: seq<Member>, ys: seq<Member>)
    requires CoherentMembers(xs) && CoherentMembers(ys) && DenoteMembers(xs) == DenoteMembers(ys)
    ensures Matches(xs, ys) && PartnersCoherent(xs, ys)
  {
    hide Denote, DenoteMembers, Coherent, CString;
    forall i | 0 <= i < |xs|
      ensures Find(ys, xs[i].key).Some? ==> Coherent(Find(ys, xs[i].key).value.value)
    {
      var found := Find(ys, xs[i].key);
      if found.Some? {
        var k :| 0 <= k < |ys| && ys[k] == found.value;
        assert Coherent(ys[k].value);
      }
    }
  }

  lemma MatchedMapsAgree(xs: seq<Member>, ys: seq<Member>)
    requires Matches(xs, ys) && Matches(ys, xs)
    ensures CoherentMembers(xs) && CoherentMembers(ys) && DenoteMembers(xs) == DenoteMembers(ys)
  {
    hide Denote, DenoteMembers, Coherent, CString;
    var m, n := DenoteMembers(xs), DenoteMembers(ys);
    forall key | key in m ensures key in n && m[key] == n[key] {
      FirstOfKey(xs, ys, key);
    }
    forall key | key in n ensures key in m && m[key] == n[key] {
      FirstOfKey(ys, xs, key);
    }
    assert m == n;
  }

  lemma FirstOfKey(xs: seq<Member>, ys: seq<Member>, key: seq<byte>)
    requires Matches(xs, ys) && key in DenoteMembers(xs)
    ensures key in DenoteMembers(ys) && DenoteMembers(xs)[key] == DenoteMembers(ys)[key]
  {
    hide Denote, DenoteMembers, Coherent, CString;
    var i := KeyHasName(xs, key);
    var name := xs[i].key;
    FindDenotes(xs, name);
    var found := Find(xs, name);
    var k :| 0 <= k < |xs| && xs[k] == found.value;
    assert Denote(xs[k].value) == DenoteMembers(ys)[CString(xs[k].key)];
  }

  // ---------------------------------------------------------------- what follows

  lemma {:induction false} DistinctIsCoherent(v: Json)
    requires DistinctKeys(v)
    ensures Coherent(v)
    decreases v
  {
    hide DenoteMembers, CString;
    match v
    case Array(items) =>
      forall i | 0 <= i < |items| ensures Coherent(items[i]) {
        DistinctIsCoherent(items[i]);
      }
    case Object(members) =>
      forall i | 0 <= i < |members| ensures Coherent(members[i].value) {
        DistinctIsCoherent(members[i].value);
      }
      DistinctAgree(members);
    case _ =>
  }

  lemma DistinctAgree(members: seq<Member>)
    requires DistinctMembers(members)
    ensures Agreeing(members)
  {
    hide DenoteMembers, CString, Denote, DistinctKeys;
    forall i | 0 <= i < |members|
      ensures CString(members[i].key) in DenoteMembers(members)
      ensures DenoteMembers(members)[CString(members[i].key)] == Denote(members[i].value)
    {
      NamesAreKeys(members, i);
      FindDenotes(members, members[i].key);
      var found := Find(members, members[i].key).value;
      var k :| 0 <= k < |members| && members[k] == found;
      assert k == i;
    }
  }

  /** On trees without repeated names, comparison is equality of values. */
  lemma DistinctCompareIsEquality(a: Json, b: Json)
    requires Int32Numbers(a) && Int32Numbers(b) && DistinctKeys(a) && DistinctKeys(b)
    ensures Compare(a, b) <==> Denote(a) == Denote(b)
  {
    hide Compare, Denote, Coherent, DistinctKeys, Int32Numbers;
    CompareIsEquality(a, b);
    DistinctIsCoherent(a);
    DistinctIsCoherent(b);
  }

  /** Hence an equivalence: reflexive on coherent trees only, symmetric and transitive on all. */
  lemma CompareIsEquivalence(a: Json, b: Json, c: Json)
    requires Int32Numbers(a) && Int32Numbers(b) && Int32Numbers(c)
    ensures Compare(a, a) <==> Coherent(a)
    ensures Compare(a, b) <==> Compare(b, a)
    ensures Compare(a, b) && Compare(b, c) ==> Compare(a, c)
  {
    hide Compare, Denote, Coherent, Int32Numbers;
    CompareIsEquality(a, a);
    CompareIsEquality(a, b);
    CompareIsEquality(b, a);
    CompareIsEquality(b, c);
    CompareIsEquality(a, c);
  }

  /** A repeated name breaks reflexivity: such an object is not equal to a copy of itself. */
  lemma RepeatedNameExample()
    ensures var v := Object([Member([107], True), Member([107], False)]);
            Int32Numbers(v) && !Coherent(v) && !Compare(v, v)
  {
    var v := Object([Member([107], True), Member([107], False)]);
    var m := v.members;
    assert m[1..][0] == m[1];
    assert CString(m[1].key) == CString(m[0].key);
    assert DenoteMembers(m)[CString(m[1].key)] == Denote(True);
    assert Denote(m[1].value) == Denote(False);
    assert !Coherent(v);
    CompareIsEquality(v, v);
  }

  /** The order in which an object lists its members does not matter, nor that it lists one twice. */
  lemma OrderIsIrrelevant(xs: seq<Member>, ys: seq<Member>)
    requires CoherentMembers(xs) && Int32Members(xs)
    requires forall m :: m in xs <==> m in ys
    ensures Compare(Object(xs), Object(ys))
  {
    hide CoherentMembers, EachIsFound, Matches, DenoteMembers, Int32Numbers;
    SameMembersMatch(xs, ys);
    MatchedMapsAgree(xs, ys);
    forall i | 0 <= i < |ys| ensures Int32Numbers(ys[i].value) {
      assert ys[i] in ys;
      var k :| 0 <= k < |xs| && xs[k] == ys[i];
      assert Int32Numbers(xs[k].value);
    }
    MembersCompare(xs, ys);
  }

  lemma SameMembersMatch(xs: seq<Member>, ys: seq<Member>)
    requires CoherentMembers(xs)
    requires forall m :: m in xs <==> m in ys
    ensures Matches(xs, ys) && Matches(ys, xs)
  {
    hide Denote, DenoteMembers, Coherent, CString;
    forall i | 0 <= i < |xs|
      ensures CString(xs[i].key) in DenoteMembers(ys) && Coherent(xs[i].value)
      ensures Denote(xs[i].value) == DenoteMembers(ys)[CString(xs[i].key)]
    {
      MemberIsFound(xs, ys, i);
    }
    forall i | 0 <= i < |ys|
      ensures CString(ys[i].key) in DenoteMembers(xs) && Coherent(ys[i].value)
      ensures Denote(ys[i].value) == DenoteMembers(xs)[CString(ys[i].key)]
    {
      assert ys[i] in ys;
      var k :| 0 <= k < |xs| && xs[k] == ys[i];
      assert Coherent(xs[k].value);
    }
  }

  lemma MemberIsFound(xs: seq<Member>, ys: seq<Member>, i: nat)
    requires CoherentMembers(xs) && i < |xs|
    requires forall m :: m in xs <==> m in ys
    ensures CString(xs[i].key) in DenoteMembers(ys)
    ensures Denote(xs[i].value) == DenoteMembers(ys)[CString(xs[i].key)]
  {
    hide Denote, DenoteMembers, Coherent, CString;
    assert xs[i] in ys;
    var k :| 0 <= k < |ys| && ys[k] == xs[i];
    NamesAreKeys(ys, k);
    FindDenotes(ys, xs[i].key);
    var found := Find(ys, xs[i].key).value;
    assert found in xs;
    var j :| 0 <= j < |xs| && xs[j] == found;
    assert Denote(xs[j].value) == DenoteMembers(xs)[CString(xs[j].key)];
  }

  /** With the shortcut: the same item compares equal to itself whatever it holds. Two different items
      share an item below them only through reference items, which are not modelled; without those the
      shortcut can be taken at the top only. */
  predicate CompareItem(a: Json, b: Json, sameItem: bool)
    requires sameItem ==> a == b
  {
    sameItem || Compare(a, b)
  }

  /** In all cases comparison implies equal values, and is true of them unless two different items are
      compared and hold members that disagree. */
  lemma CompareItemIsEquality(a: Json, b: Json, sameItem: bool)
    requires (sameItem ==> a == b) && Int32Numbers(a) && Int32Numbers(b)
    ensures CompareItem(a, b, sameItem) <==> Denote(a) == Denote(b) && (sameItem || (Coherent(a) && Coherent(b)))
  {
    hide Compare, Denote, Coherent, Int32Numbers;
    CompareIsEquality(a, b);
  }

  // ---------------------------------------------------------------- duplication

  /** `CJSON_CIRCULAR_LIMIT`. */
  const CIRCULAR_LIMIT: nat := 10000

  /** `cJSON_Duplicate_rec`: the copy, unless a child would be copied at a depth beyond the limit. */
  function Duplicate(v: Json, depth: nat, recurse: bool): (r: Option<Json>)
    decreases v, 0
  {
    match v
    case String(s) => Some(String(CString(s)))
    case Array(items) =>
      if !recurse then Some(Array([])) else
      var children := DuplicateItems(items, depth);
      if children.None? then None else Some(Array(children.value))
    case Object(members) =>
      if !recurse then Some(Object([])) else
      var children := DuplicateMembers(members, depth);
      if children.None? then None else Some(Object(children.value))
    case _ => Some(v)
  }

  /** The walk along the child list; `depth` is that of the parent. */
  function DuplicateItems(items: seq<Json>, depth: nat): (r: Option<seq<Json>>)
    decreases items
  {
    if items == [] then Some([])
    else if depth >= CIRCULAR_LIMIT then None
    else
      var child := Duplicate(items[0], depth + 1, true);
      if child.None? then None else
      var others := DuplicateItems(items[1..], depth);
      if others.None? then None else Some([child.value] + others.value)
  }

  function DuplicateMembers(members: seq<Member>, depth: nat): (r: Option<seq<Member>>)
    decreases members
  {
    if members == [] then Some([])
    else if depth >= CIRCULAR_LIMIT then None
    else
      var child := Duplicate(members[0].value, depth + 1, true);
      if child.None? then None else
      var others := DuplicateMembers(members[1..], depth);
      if others.None? then None
      else Some([Member(CString(members[0].key), child.value)] + others.value)
  }

  /** How far below the root the deepest item lies. */
  function Height(v: Json): nat
    decreases v, 0
  {
    match v
    case Array(items) => HeightOfItems(items)
    case Object(members) => HeightOfMembers(members)
    case _ => 0
  }

  function HeightOfItems(items: seq<Json>): nat
    decreases items
  {
    if items == [] then 0 else Max(1 + Height(items[0]), HeightOfItems(items[1..]))
  }

  function HeightOfMembers(members: seq<Member>): nat
    decreases members
  {
    if members == [] then 0 else Max(1 + Height(members[0].value), HeightOfMembers(members[1..]))
  }

  /** A copy is made exactly when no item lies deeper than the limit, and stands for the same value. */
  lemma {:induction false} DuplicateMeans(v: Json, depth: nat)
    requires depth <= CIRCULAR_LIMIT
    ensures var r := Duplicate(v, depth, true);
      (r.Some? <==> depth + Height(v) <= 10000) &&
      (r.Some? ==> Denote(r.value) == Denote(v) && (Coherent(r.value) <==> Coherent(v)) &&
                   (Int32Numbers(v) ==> Int32Numbers(r.value)))
    decreases v, 0
  {
    hide DuplicateItems, DuplicateMembers, HeightOfItems, HeightOfMembers, DenoteItems, DenoteMembers,
         CoherentMembers, CString, IsInt32;
    match v
    case String(s) => CStringTwice(s);
    case Array(items) => DuplicateItemsMeans(items, depth);
    case Object(members) => DuplicateMembersMeans(members, depth);
    case _ =>
  }

  /** The strings and keys of the tree are C strings, as they are in memory. */
  predicate CStrings(v: Json)
    decreases v, 0
  {
    match v
    case String(s) => NulFree(s)
    case Array(items) => CStringItems(items)
    case Object(members) => CStringMembers(members)
    case _ => true
  }

  predicate CStringItems(items: seq<Json>)
    decreases items
  {
    items == [] || (CStrings(items[0]) && CStringItems(items[1..]))
  }

  predicate CStringMembers(members: seq<Member>)
    decreases members
  {
    members == [] || (NulFree(members[0].key) && CStrings(members[0].value) && CStringMembers(members[1..]))
  }

  /** The copy is the same tree, in the same order; without recursion it is the item alone. */
  lemma {:induction false} DuplicateIsSame(v: Json, depth: nat)
    requires CStrings(v) && depth + Height(v) <= 10000
    ensures Duplicate(v, depth, true) == Some(v)
    ensures Duplicate(v, depth, false) == Some(if v.Array? then Array([]) else if v.Object? then Object([]) else v)
    decreases v, 1
  {
    hide DuplicateItems, DuplicateMembers, HeightOfItems, HeightOfMembers, CStringItems, CStringMembers;
    match v
    case Array(items) => DuplicateItemsAreSame(items, depth);
    case Object(members) => DuplicateMembersAreSame(members, depth);
    case _ =>
  }

  lemma {:induction false} DuplicateItemsAreSame(items: seq<Json>, depth: nat)
    requires CStringItems(items) && depth + HeightOfItems(items) <= 10000
    ensures DuplicateItems(items, depth) == Some(items)
    decreases items, 0
  {
    hide Duplicate, Height, CStrings;
    if items != [] {
      DuplicateIsSame(items[0], depth + 1);
      DuplicateItemsAreSame(items[1..], depth);
      assert [items[0]] + items[1..] == items;
    }
  }

  lemma {:induction false} DuplicateMembersAreSame(members: seq<Member>, depth: nat)
    requires CStringMembers(members) && depth + HeightOfMembers(members) <= 10000
    ensures DuplicateMembers(members, depth) == Some(members)
    decreases members, 0
  {
    hide Duplicate, Height, CStrings;
    if members != [] {
      DuplicateIsSame(members[0].value, depth + 1);
      DuplicateMembersAreSame(members[1..], depth);
      assert Member(members[0].key, members[0].value) == members[0];
      assert [members[0]] + members[1..] == members;
    }
  }

  lemma CStringTwice(s: seq<byte>)
    ensures CString(CString(s)) == CString(s)
  {
  }

  lemma {:induction false} DuplicateItemsMeans(items: seq<Json>, depth: nat)
    requires depth <= CIRCULAR_LIMIT
    ensures var r := DuplicateItems(items, depth);
      (r.Some? <==> depth + HeightOfItems(items) <= CIRCULAR_LIMIT) &&
      (r.Some? ==> DenoteItems(r.value) == DenoteItems(items) &&
                   (Coherent(Array(r.value)) <==> Coherent(Array(items))) &&
                   (Int32Numbers(Array(items)) ==> Int32Numbers(Array(r.value))))
    decreases items
  {
    hide Duplicate, Denote, Height, CString;
    if items != [] && depth < CIRCULAR_LIMIT {
      DuplicateMeans(items[0], depth + 1);
      DuplicateItemsMeans(items[1..], depth);
      var r := DuplicateItems(items, depth);
      if r.Some? {
        assert r.value[1..] == DuplicateItems(items[1..], depth).value;
        CoherentStep(items);
        CoherentStep(r.value);
        Int32Step(items, r.value);
      }
    }
  }

  lemma Int32Step(xs: seq<Json>, ys: seq<Json>)
    requires xs != [] && ys != []
    requires Int32Numbers(xs[0]) ==> Int32Numbers(ys[0])
    requires Int32Numbers(Array(xs[1..])) ==> Int32Numbers(Array(ys[1..]))
    ensures Int32Numbers(Array(xs)) ==> Int32Numbers(Array(ys))
  {
    if Int32Numbers(Array(xs)) {
      forall i | 0 <= i < |xs[1..]| ensures Int32Numbers(xs[1..][i]) {
        assert xs[1..][i] == xs[i + 1];
      }
      assert Int32Numbers(Array(xs[1..]));
      assert Int32Numbers(Array(ys[1..]));
      forall i | 0 <= i < |ys| ensures Int32Numbers(ys[i]) {
        if i > 0 {
          assert ys[i] == ys[1..][i - 1];
        }
      }
    }
  }

  /** The copied members, position by position. */
  lemma {:induction false} DuplicateMembersAt(members: seq<Member>, depth: nat)
    requires depth <= CIRCULAR_LIMIT
    ensures var r := DuplicateMembers(members, depth);
      (r.Some? <==> depth + HeightOfMembers(members) <= CIRCULAR_LIMIT) &&
      (r.Some? ==> |r.value| == |members| && DenoteMembers(r.value) == DenoteMembers(members))
    ensures var r := DuplicateMembers(members, depth);
      r.Some? ==> forall i :: 0 <= i < |members| ==> SameMember(members[i], r.value[i])
    decreases members, 0
  {
    hide Duplicate, Denote, Height, CString, SameMember;
    if members != [] && depth < CIRCULAR_LIMIT {
      DuplicateMeans(members[0].value, depth + 1);
      DuplicateMembersAt(members[1..], depth);
      var r := DuplicateMembers(members, depth);
      if r.Some? {
        assert r.value[1..] == DuplicateMembers(members[1..], depth).value;
        CStringTwice(members[0].key);
        IsSameMember(members[0], r.value[0]);
        forall i | 1 <= i < |members| ensures SameMember(members[i], r.value[i]) {
          assert members[i] == members[1..][i - 1] && r.value[i] == r.value[1..][i - 1];
        }
      }
    }
  }

  ghost predicate SameMember(m: Member, n: Member) {
    CString(m.key) == CString(n.key) && Denote(m.value) == Denote(n.value) &&
    (Coherent(m.value) <==> Coherent(n.value)) && (Int32Numbers(m.value) ==> Int32Numbers(n.value))
  }

  lemma IsSameMember(m: Member, n: Member)
    requires CString(m.key) == CString(n.key) && Denote(m.value) == Denote(n.value)
    requires Coherent(m.value) <==> Coherent(n.value)
    requires Int32Numbers(m.value) ==> Int32Numbers(n.value)
    ensures SameMember(m, n)
  {
  }

  lemma {:induction false} DuplicateMembersMeans(members: seq<Member>, depth: nat)
    requires depth <= CIRCULAR_LIMIT
    ensures var r := DuplicateMembers(members, depth);
      (r.Some? <==> depth + HeightOfMembers(members) <= CIRCULAR_LIMIT) &&
      (r.Some? ==> DenoteMembers(r.value) == DenoteMembers(members) &&
                   (CoherentMembers(r.value) <==> CoherentMembers(members)) &&
                   (Int32Members(members) ==> Int32Members(r.value)))
    decreases members, 1
  {
    hide DuplicateMembers, DenoteMembers, HeightOfMembers, Denote, Coherent, Int32Numbers, CString;
    DuplicateMembersAt(members, depth);
  }

  /** Between a tree and its recursive duplicate, comparison succeeds whenever it would succeed between
      any two copies of the tree at all. */
  lemma DuplicateComparesEqual(v: Json)
    requires Int32Numbers(v)
    ensures Duplicate(v, 0, true).Some? <==> Height(v) <= CIRCULAR_LIMIT
    ensures Height(v) <= CIRCULAR_LIMIT ==> (Compare(v, Duplicate(v, 0, true).value) <==> Coherent(v))
  {
    hide Duplicate, Compare, Denote, Coherent, Height, Int32Numbers;
    DuplicateMeans(v, 0);
    if Height(v) <= CIRCULAR_LIMIT {
      CompareIsEquality(v, Duplicate(v, 0, true).value);
    }
  }
}
