/**
 * Python's `dict` with string keys, as the scripts use it: a value per key
 * and the order in which keys were first inserted (iteration order).
 * Assigning to a key already present changes its value and keeps its place.
 */
module Dicts {
  import opened Wrappers

  predicate Distinct<T(==)>(s: seq<T>) {
    forall i, j :: 0 <= i < j < |s| ==> s[i] != s[j]
  }

  datatype Dict<V> = Dict(keys: seq<string>, vals: map<string, V>) {
    /** Every key is listed once, and exactly the keys with a value are listed. */
    ghost predicate Valid() {
      Distinct(keys) && forall k :: k in vals <==> k in keys
    }

    /** `d[k] = v`. */
    function Put(k: string, v: V): (r: Dict<V>)
      ensures r.vals == vals[k := v]
      ensures r.keys == if k in vals then keys else keys + [k]
    {
      Dict(if k in vals then keys else keys + [k], vals[k := v])
    }

    /** `d.get(k)`. */
    function Get(k: string): Option<V> {
      if k in vals then Some(vals[k]) else None
    }
  }

  /** `d[k] = v` keeps a dict well formed. */
  lemma PutValid<V>(d: Dict<V>, k: string, v: V)
    requires d.Valid()
    ensures d.Put(k, v).Valid()
  {
    var r := d.Put(k, v);
    if k !in d.vals {
      forall i, j | 0 <= i < j < |r.keys| ensures r.keys[i] != r.keys[j] {
        if j == |d.keys| { assert r.keys[j] == k && r.keys[i] in d.keys; }
      }
    }
  }

  /** Assigning a key twice leaves the second value, at the place the first assignment gave it. */
  lemma PutPut<V>(d: Dict<V>, k: string, a: V, b: V)
    ensures d.Put(k, a).Put(k, b) == d.Put(k, b)
  {
    assert d.vals[k := a][k := b] == d.vals[k := b];
  }

  function Empty<V>(): (r: Dict<V>)
    ensures r.Valid() && r.keys == [] && r.vals == map[]
  {
    Dict([], map[])
  }

  /** `d.items()` in insertion order. */
  function Items<V>(keys: seq<string>, vals: map<string, V>): (r: seq<(string, V)>)
    requires forall k :: k in keys ==> k in vals
    ensures |r| == |keys|
    ensures forall i :: 0 <= i < |keys| ==> r[i] == (keys[i], vals[keys[i]])
  {
    if keys == [] then [] else Items(keys[..|keys| - 1], vals) + [(keys[|keys| - 1], vals[keys[|keys| - 1]])]
  }

  /** The items of one more key are those of the keys before it and its own pair. */
  lemma ItemsStep<V>(keys: seq<string>, vals: map<string, V>, i: nat)
    requires i < |keys| && forall k :: k in keys ==> k in vals
    ensures Items(keys[..i + 1], vals) == Items(keys[..i], vals) + [(keys[i], vals[keys[i]])]
  {
    assert keys[..i + 1][..i] == keys[..i];
  }

  /** The sum of `f` over the values of the keys `ks`, in order. */
  function SumOver<V>(ks: seq<string>, m: map<string, V>, f: V -> int): int
    requires forall k :: k in ks ==> k in m
  {
    if ks == [] then 0 else SumOver(ks[..|ks| - 1], m, f) + f(m[ks[|ks| - 1]])
  }

  /** The sum of `f` over all values of a dict. */
  function Total<V>(d: Dict<V>, f: V -> int): int
    requires d.Valid()
  {
    SumOver(d.keys, d.vals, f)
  }

  /** Changing the value of a key outside `ks` leaves the sum over `ks` alone. */
  lemma {:induction false} SumOverFrame<V>(ks: seq<string>, m: map<string, V>, k: string, v: V, f: V -> int)
    requires forall x :: x in ks ==> x in m
    requires k !in ks
    ensures SumOver(ks, m[k := v], f) == SumOver(ks, m, f)
  {
    if ks != [] {
      SumOverFrame(ks[..|ks| - 1], m, k, v, f);
    }
  }

  /** Changing the value of a key listed once in `ks` moves the sum by the difference. */
  lemma {:induction false} SumOverUpdate<V>(ks: seq<string>, m: map<string, V>, k: string, v: V, f: V -> int)
    requires forall x :: x in ks ==> x in m
    requires Distinct(ks) && k in ks
    ensures SumOver(ks, m[k := v], f) == SumOver(ks, m, f) - f(m[k]) + f(v)
  {
    var init := ks[..|ks| - 1];
    assert forall x :: x in init ==> x in ks;
    if ks[|ks| - 1] == k {
      SumOverFrame(init, m, k, v, f);
    } else {
      SumOverUpdate(init, m, k, v, f);
    }
  }

  /** `d[k] = v` moves the total by the new value less the old one (none if `k` was absent). */
  lemma TotalPut<V>(d: Dict<V>, k: string, v: V, f: V -> int)
    requires d.Valid()
    ensures d.Put(k, v).Valid()
    ensures Total(d.Put(k, v), f) == Total(d, f) - (if k in d.vals then f(d.vals[k]) else 0) + f(v)
  {
    var r := d.Put(k, v);
    PutValid(d, k, v);
    if k in d.vals {
      SumOverUpdate(d.keys, d.vals, k, v, f);
    } else {
      assert r.keys[..|r.keys| - 1] == d.keys;
      SumOverFrame(d.keys, d.vals, k, v, f);
    }
  }
}
