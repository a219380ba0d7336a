/**
 * The Ruby values that appear as arguments of the custom-resource DSL and in
 * the command-line option hash, with the two pieces of the Ruby core library
 * the resource record relies on: Kernel#Array and the insertion-ordered Hash
 * (Hash#[]= and Hash#merge).
 */
module RubyValues {
  import opened Wrappers

  datatype Value =
    | Nil
    | Bool(b: bool)
    | Int(i: int)
    | Str(s: string)
    | Sym(name: string)
    | Const(path: string)            // a constant reference such as String or Integer
    | Arr(items: seq<Value>)
    | Hash(entries: seq<(Value, Value)>)

  /** The entries of a Ruby Hash, in insertion order. */
  type Entries = seq<(Value, Value)>

  /**
   * Kernel#Array: nil becomes the empty array, an array is kept as it is, a
   * hash becomes its list of [key, value] pairs and any other value is
   * wrapped in a one-element array.
   */
  function ArrayOf(v: Value): (r: seq<Value>)
    ensures v.Arr? ==> r == v.items
    ensures r == [] <==> v.Nil? || v == Arr([]) || v == Hash([])
    ensures v.Hash? ==> |r| == |v.entries|
    ensures v.Hash? ==> forall i :: 0 <= i < |r| ==> r[i] == Arr([v.entries[i].0, v.entries[i].1])
    ensures !v.Nil? && !v.Arr? && !v.Hash? ==> r == [v]
  {
    match v
    case Nil => []
    case Arr(items) => items
    case Hash(entries) => seq(|entries|, i requires 0 <= i < |entries| => Arr([entries[i].0, entries[i].1]))
    case _ => [v]
  }

  /** The keys of a hash, in insertion order. */
  function Keys(h: Entries): (ks: seq<Value>)
    ensures |ks| == |h|
    ensures forall i :: 0 <= i < |h| ==> ks[i] == h[i].0
  {
    if h == [] then [] else [h[0].0] + Keys(h[1..])
  }

  /** No key occurs twice: what every Ruby Hash guarantees. */
  predicate DistinctKeys(h: Entries)
  {
    forall i, j :: 0 <= i < j < |h| ==> h[i].0 != h[j].0
  }

  /** Hash#[]: the value stored under `k`, if any. */
  function Lookup(h: Entries, k: Value): (r: Option<Value>)
    ensures r.None? <==> k !in Keys(h)
    ensures r.Some? ==> (k, r.value) in h
  {
    if h == [] then None
    else if h[0].0 == k then Some(h[0].1)
    else Lookup(h[1..], k)
  }

  /**
   * Hash#[]=: an existing key keeps its position and takes the new value;
   * a new key goes last.
   */
  function Store(h: Entries, k: Value, v: Value): (r: Entries)
    ensures k in Keys(h) ==> Keys(r) == Keys(h)
    ensures k !in Keys(h) ==> Keys(r) == Keys(h) + [k]
  {
    if h == [] then [(k, v)]
    else if h[0].0 == k then
      assert Keys([(k, v)] + h[1..]) == Keys(h) by {
        assert ([(k, v)] + h[1..])[1..] == h[1..];
      }
      [(k, v)] + h[1..]
    else
      var rest := Store(h[1..], k, v);
      assert Keys(h) == [h[0].0] + Keys(h[1..]);
      assert Keys([h[0]] + rest) == [h[0].0] + Keys(rest) by {
        assert ([h[0]] + rest)[1..] == rest;
      }
      [h[0]] + rest
  }

  /** Hash#[]= never makes a key occur twice. */
  lemma StoreKeepsDistinct(h: Entries, k: Value, v: Value)
    ensures DistinctKeys(h) ==> DistinctKeys(Store(h, k, v))
  {
    var r := Store(h, k, v);
    if DistinctKeys(h) {
      forall i, j | 0 <= i < j < |r| ensures r[i].0 != r[j].0 {
        assert r[i].0 == Keys(r)[i] && r[j].0 == Keys(r)[j];
        if j < |h| {
          assert Keys(r)[i] == h[i].0 && Keys(r)[j] == h[j].0;
        } else {
          assert Keys(r)[i] == Keys(h)[i];
        }
      }
    }
  }

  /** After Hash#[]=, the key holds the new value and every other key its old one. */
  lemma {:induction false} StoreLookup(h: Entries, k: Value, v: Value, j: Value)
    ensures Lookup(Store(h, k, v), j) == if j == k then Some(v) else Lookup(h, j)
  {
    if h == [] {
      assert [(k, v)][1..] == [];
    } else if h[0].0 == k {
      var r := [(k, v)] + h[1..];
      assert r[0] == (k, v) && r[1..] == h[1..];
    } else {
      var rest := Store(h[1..], k, v);
      var r := [h[0]] + rest;
      assert r[0] == h[0] && r[1..] == rest;
      if h[0].0 != j {
        StoreLookup(h[1..], k, v, j);
      }
    }
  }

  /** Hash#merge: the entries of `other`, in their order, stored over `h`. */
  function Merge(h: Entries, other: Entries): (r: Entries)
    ensures Keys(h) <= Keys(r)
    ensures forall k :: k in Keys(r) <==> k in Keys(h) || k in Keys(other)
    ensures DistinctKeys(h) ==> DistinctKeys(r)
    decreases |other|
  {
    if other == [] then h
    else
      var stored := Store(h, other[0].0, other[0].1);
      StoreKeepsDistinct(h, other[0].0, other[0].1);
      Merge(stored, other[1..])
  }

  /** After a merge, a key of `other` has `other`'s value; any other key keeps the value it had in `h`. */
  lemma {:induction false} MergeLookup(h: Entries, other: Entries, k: Value)
    requires DistinctKeys(other)
    ensures Lookup(Merge(h, other), k) == if k in Keys(other) then Lookup(other, k) else Lookup(h, k)
    decreases |other|
  {
    if other != [] {
      var k0, v0 := other[0].0, other[0].1;
      var rest := other[1..];
      assert Keys(other) == [k0] + Keys(rest);
      assert DistinctKeys(rest);
      assert k0 !in Keys(rest) by {
        forall i | 0 <= i < |rest| ensures Keys(rest)[i] != k0 {
          assert rest[i] == other[i + 1];
        }
      }
      MergeLookup(Store(h, k0, v0), rest, k);
      StoreLookup(h, k0, v0, k);
    }
  }
}
