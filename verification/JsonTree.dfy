/** The values that cJSON builds: one datatype value per tree of `cJSON` items, the children of an
    array or object in list order. The pointers that hold a child list together are in ChildList. */
module JsonTree {
  import opened Bytes

  /** `valuedouble` is a real: rounding is not modelled. `valueint` is always the saturated integer
      part of it and needs no field. */
  datatype Json =
    | Null
    | False
    | True
    | Number(valuedouble: real)
    | String(valuestring: seq<byte>)
    | Array(items: seq<Json>)
    | Object(members: seq<Member>)

  datatype Member = Member(key: seq<byte>, value: Json)

  const INT_MAX: int := 0x7FFF_FFFF
  const INT_MIN: int := -0x8000_0000

  /** `CJSON_NESTING_LIMIT`. */
  const NESTING_LIMIT: nat := 1000

  /** A number whose `valueint` is exactly its value. */
  predicate IsInt32(d: real) {
    d == d.Floor as real && -2147483648 <= d.Floor <= 2147483647
  }

  function Max(a: nat, b: nat): nat {
    if a >= b then a else b
  }

  /** How many arrays and objects are open at the deepest point. */
  function Nesting(v: Json): nat
    decreases v, 0
  {
    match v
    case Array(items) => 1 + NestingOfItems(items)
    case Object(members) => 1 + NestingOfMembers(members)
    case _ => 0
  }

  function NestingOfItems(items: seq<Json>): nat
    decreases items
  {
    if items == [] then 0 else Max(Nesting(items[0]), NestingOfItems(items[1..]))
  }

  function NestingOfMembers(members: seq<Member>): nat
    decreases members
  {
    if members == [] then 0 else Max(Nesting(members[0].value), NestingOfMembers(members[1..]))
  }

  /** Trees that the printer modelled here can render: int32 numbers, and strings and keys that are
      C strings. */
  predicate Printable(v: Json)
    decreases v, 0
  {
    match v
    case Number(d) => IsInt32(d)
    case String(s) => NulFree(s)
    case Array(items) => PrintableItems(items)
    case Object(members) => PrintableMembers(members)
    case _ => true
  }

  predicate PrintableItems(items: seq<Json>)
    decreases items
  {
    items == [] || (Printable(items[0]) && PrintableItems(items[1..]))
  }

  predicate PrintableMembers(members: seq<Member>)
    decreases members
  {
    members == [] ||
    (NulFree(members[0].key) && Printable(members[0].value) && PrintableMembers(members[1..]))
  }
}
