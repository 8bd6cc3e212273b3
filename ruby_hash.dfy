/**
 * The caller-owned options Hash of the client's private calls: string keys
 * and string values kept in insertion order. Assigning to a key that is
 * present replaces its value where it stands; a new key is appended.
 */
module RubyHash {
  import opened Wrappers

  /** One (key, value) pair of a Ruby Hash, in insertion order. */
  type Entry = (string, string)

  /** The keys of `e`, in insertion order. */
  function KeysOf(e: seq<Entry>): (ks: seq<string>)
    ensures |ks| == |e|
    ensures forall i :: 0 <= i < |e| ==> ks[i] == e[i].0
  {
    if e == [] then [] else [e[0].0] + KeysOf(e[1..])
  }

  /** No key occurs twice: the shape of every Ruby Hash. */
  predicate DistinctKeys(e: seq<Entry>) {
    forall i, j :: 0 <= i < j < |e| ==> e[i].0 != e[j].0
  }

  /** The Hash as a dictionary; the first pair with a given key wins. */
  function ToMap(e: seq<Entry>): map<string, string> {
    if e == [] then map[] else ToMap(e[1..])[e[0].0 := e[0].1]
  }

  /** A key has a value exactly when it is one of the Hash's keys. */
  lemma {:induction false} ToMapKeys(e: seq<Entry>, k: string)
    ensures k in ToMap(e) <==> k in KeysOf(e)
  {
    if e != [] {
      ToMapKeys(e[1..], k);
      assert KeysOf(e) == [e[0].0] + KeysOf(e[1..]);
    }
  }

  /** Hash#[]: the value stored under `k`, or nil. */
  function Lookup(e: seq<Entry>, k: string): Option<string> {
    var m := ToMap(e);
    if k in m then Some(m[k]) else None
  }

  /** The key list after `k` is assigned: unchanged when present, else extended. */
  function AddKey(ks: seq<string>, k: string): seq<string> {
    if k in ks then ks else ks + [k]
  }

  /**
   * Hash#[]= as a function on the entries: the dictionary gains `k := v`, a
   * present key keeps its position and a new one goes last.
   */
  function Store(e: seq<Entry>, k: string, v: string): (r: seq<Entry>)
    ensures ToMap(r) == ToMap(e)[k := v]
    ensures KeysOf(r) == AddKey(KeysOf(e), k)
  {
    if e == [] then [(k, v)]
    else if e[0].0 == k then
      var r := [(k, v)] + e[1..];
      assert r[1..] == e[1..];
      assert ToMap(r) == ToMap(e[1..])[k := v];
      r
    else
      var rest := Store(e[1..], k, v);
      var r := [e[0]] + rest;
      assert r[1..] == rest;
      assert ToMap(r) == ToMap(e[1..])[k := v][e[0].0 := e[0].1];
      assert ToMap(e[1..])[k := v][e[0].0 := e[0].1] == ToMap(e[1..])[e[0].0 := e[0].1][k := v];
      assert KeysOf(r) == [e[0].0] + KeysOf(rest);
      assert KeysOf(e) == [e[0].0] + KeysOf(e[1..]);
      r
  }

  /** Assignment never creates a second pair with the same key. */
  lemma StoreKeepsDistinct(e: seq<Entry>, k: string, v: string)
    requires DistinctKeys(e)
    ensures DistinctKeys(Store(e, k, v))
  {
    var r := Store(e, k, v);
    var ks := KeysOf(e);
    forall i, j | 0 <= i < j < |r| ensures r[i].0 != r[j].0 {
      assert r[i].0 == KeysOf(r)[i] && r[j].0 == KeysOf(r)[j];
      if k !in ks && j == |ks| {
        assert KeysOf(r)[i] == ks[i];
      }
    }
  }

  /** A Ruby Hash object whose entries its owner's calls change in place. */
  class Hash {
    var entries: seq<Entry>

    ghost predicate Valid()
      reads this
    {
      DistinctKeys(entries)
    }

    /** `{}` */
    constructor ()
      ensures Valid() && entries == []
    {
      entries := [];
    }

    /** `hash[k] = v` */
    method Put(k: string, v: string)
      requires Valid()
      modifies this
      ensures Valid()
      ensures entries == Store(old(entries), k, v)
    {
      StoreKeepsDistinct(entries, k, v);
      entries := Store(entries, k, v);
    }
  }
}
