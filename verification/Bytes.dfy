/** Bytes, C strings and the few facts about sequences that every other module needs. */
module Bytes {

  newtype byte = i: int | 0 <= i < 256

  datatype Option<+T> = None | Some(value: T)

  /** What a C program sees of a buffer: everything before the first NUL. */
  function CString(s: seq<byte>): (c: seq<byte>)
    ensures c <= s && NulFree(c)
    ensures NulFree(s) ==> c == s
  {
    if s == [] || s[0] == 0 then [] else [s[0]] + CString(s[1..])
  }

  predicate NulFree(s: seq<byte>) {
    forall i :: 0 <= i < |s| ==> s[i] != 0
  }

  /** The bytes of an ASCII string. */
  function Ascii(s: string): (b: seq<byte>)
    requires forall i :: 0 <= i < |s| ==> s[i] as int < 128
    ensures |b| == |s|
  {
    seq(|s|, i requires 0 <= i < |s| => s[i] as byte)
  }

  lemma Regroup<T>(a: seq<T>, b: seq<T>, c: seq<T>)
    ensures a + (b + c) == a + b + c
  {
  }

  /** `t` stands in `s` at position `at`. */
  ghost predicate At(s: seq<byte>, at: nat, t: seq<byte>) {
    at + |t| <= |s| && s[at..at + |t|] == t
  }

  lemma AtSplit(s: seq<byte>, at: nat, a: seq<byte>, b: seq<byte>)
    ensures At(s, at, a + b) <==> At(s, at, a) && At(s, at + |a|, b)
  {
    if At(s, at, a + b) {
      assert s[at..at + |a + b|][..|a|] == a;
      assert s[at..at + |a + b|][|a|..] == b;
      assert s[at..at + |a|] == s[at..at + |a + b|][..|a|];
      assert s[at + |a|..at + |a| + |b|] == s[at..at + |a + b|][|a|..];
    }
    if At(s, at, a) && At(s, at + |a|, b) {
      assert s[at..at + |a + b|] == s[at..at + |a|] + s[at + |a|..at + |a| + |b|];
    }
  }

  lemma AtByte(s: seq<byte>, at: nat, t: seq<byte>, k: nat)
    requires At(s, at, t) && k < |t|
    ensures at + |t| <= |s| && s[at + k] == t[k]
  {
    assert s[at..at + |t|][k] == t[k];
  }

  lemma AtPrefix(s: seq<byte>, at: nat, t: seq<byte>, k: nat)
    requires At(s, at, t) && k <= |t|
    ensures At(s, at + k, t[k..]) && at + |t| <= |s| && s[at..at + k] == t[..k]
  {
    assert t == t[..k] + t[k..];
    AtSplit(s, at, t[..k], t[k..]);
  }
}
