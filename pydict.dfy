/**
 The parts of Python's built-in `dict` and `zip` that the merge script relies
 on. A dict remembers its keys in insertion order: assigning to a key that is
 already present changes its value and keeps its place, assigning to a new key
 appends it. Iteration (`items()`) follows that order.
 */
module PyDict {

  ghost predicate Distinct<T>(s: seq<T>) {
    forall i, j :: 0 <= i < j < |s| ==> s[i] != s[j]
  }

  /** A dict: its keys in insertion order and the value of each key. */
  datatype Dict<K(==,!new), V> = Dict(keys: seq<K>, vals: map<K, V>) {
    ghost predicate Valid() {
      && Distinct(keys)
      && vals.Keys == (set k | k in keys)
    }
  }

  function Empty<K(==,!new), V>(): (d: Dict<K, V>)
    ensures d.Valid() && |d.keys| == 0
  {
    Dict([], map[])
  }

  /** The first components of a sequence of pairs. */
  function Firsts<K, V>(ps: seq<(K, V)>): (ks: seq<K>)
    ensures |ks| == |ps|
    ensures forall i :: 0 <= i < |ps| ==> ks[i] == ps[i].0
  {
    seq(|ps|, i requires 0 <= i < |ps| => ps[i].0)
  }

  /** The keys a sequence of pairs mentions. */
  function KeySet<K, V>(ps: seq<(K, V)>): set<K> {
    if ps == [] then {} else {ps[0].0} + KeySet(ps[1..])
  }

  /** `d[k] = v`. */
  function Set<K(==,!new), V>(d: Dict<K, V>, k: K, v: V): (r: Dict<K, V>)
    requires d.Valid()
    ensures r.Valid()
    ensures r.vals == d.vals[k := v]
    ensures r.keys == if k in d.vals then d.keys else d.keys + [k]
  {
    if k in d.vals then Dict(d.keys, d.vals[k := v]) else Dict(d.keys + [k], d.vals[k := v])
  }

  /** `d.items()`: the entries in iteration order. */
  function Items<K(==,!new), V>(d: Dict<K, V>): (ps: seq<(K, V)>)
    requires d.Valid()
    ensures |ps| == |d.keys|
    ensures forall i :: 0 <= i < |ps| ==> ps[i].0 == d.keys[i] && ps[i].1 == d.vals[d.keys[i]]
  {
    seq(|d.keys|, i requires 0 <= i < |d.keys| => (d.keys[i], d.vals[d.keys[i]]))
  }

  /**
   Assigns the pairs of `ps` to `d` one after another, as `dict(ps)` and
   `d.update(ps)` do. The keys of `d` keep their places at the front, keys of
   `ps` are added, and every key `ps` does not mention keeps its value.
   */
  function Insert<K(==,!new), V>(d: Dict<K, V>, ps: seq<(K, V)>): (r: Dict<K, V>)
    requires d.Valid()
    ensures r.Valid()
    ensures r.vals.Keys == d.vals.Keys + KeySet(ps)
    ensures forall k :: k in d.vals && k !in KeySet(ps) ==> r.vals[k] == d.vals[k]
    ensures d.keys <= r.keys
    ensures KeySet(ps) <= d.vals.Keys ==> r.keys == d.keys
    decreases |ps|
  {
    if ps == [] then d
    else
      var d' := Set(d, ps[0].0, ps[0].1);
      var r := Insert(d', ps[1..]);
      r
  }

  /** When the pairs agree with a map `m`, every key they mention ends up with its value in `m`. */
  lemma {:induction false} InsertAgrees<K(!new), V>(d: Dict<K, V>, ps: seq<(K, V)>, m: map<K, V>)
    requires d.Valid()
    requires forall i :: 0 <= i < |ps| ==> ps[i].0 in m && m[ps[i].0] == ps[i].1
    ensures forall k :: k in KeySet(ps) ==> k in m && Insert(d, ps).vals[k] == m[k]
    decreases |ps|
  {
    if ps != [] {
      var d' := Set(d, ps[0].0, ps[0].1);
      InsertAgrees(d', ps[1..], m);
    }
  }

  /** Pairs with distinct keys, none of them in `d`, are appended in their own order. */
  lemma {:induction false} InsertFresh<K(!new), V>(d: Dict<K, V>, ps: seq<(K, V)>)
    requires d.Valid()
    requires Distinct(Firsts(ps))
    requires forall i :: 0 <= i < |ps| ==> ps[i].0 !in d.vals
    ensures Insert(d, ps).keys == d.keys + Firsts(ps)
    decreases |ps|
  {
    if ps != [] {
      var d' := Set(d, ps[0].0, ps[0].1);
      FreshHead(d, ps);
      InsertFresh(d', ps[1..]);
      SeqAssoc(d.keys, [ps[0].0], Firsts(ps[1..]));
    }
  }

  /** Assigning the first of several fresh, distinct keys leaves the rest fresh. */
  lemma FreshHead<K(!new), V>(d: Dict<K, V>, ps: seq<(K, V)>)
    requires d.Valid() && |ps| > 0
    requires Distinct(Firsts(ps))
    requires forall i :: 0 <= i < |ps| ==> ps[i].0 !in d.vals
    ensures Set(d, ps[0].0, ps[0].1).keys == d.keys + [ps[0].0]
    ensures Distinct(Firsts(ps[1..]))
    ensures forall i :: 0 <= i < |ps| - 1 ==> ps[1..][i].0 !in Set(d, ps[0].0, ps[0].1).vals
    ensures Firsts(ps) == [ps[0].0] + Firsts(ps[1..])
  {
    FreshTail(ps);
    var rest := ps[1..];
    forall i | 0 <= i < |rest| ensures rest[i].0 != ps[0].0 {
      assert rest[i].0 == Firsts(rest)[i];
    }
  }

  /** Pairs with distinct keys each leave their own value behind. */
  lemma {:induction false} InsertDistinct<K(!new), V>(d: Dict<K, V>, ps: seq<(K, V)>)
    requires d.Valid()
    requires Distinct(Firsts(ps))
    ensures forall i :: 0 <= i < |ps| ==> ps[i].0 in Insert(d, ps).vals && Insert(d, ps).vals[ps[i].0] == ps[i].1
    decreases |ps|
  {
    if ps != [] {
      var k0, rest := ps[0].0, ps[1..];
      var d' := Set(d, k0, ps[0].1);
      FreshTail(ps);
      InsertDistinct(d', rest);
      var r := Insert(d', rest);
      assert r == Insert(d, ps);
      assert r.vals[k0] == ps[0].1 by {
        KeySetIsFirsts(rest);
      }
      forall i | 0 < i < |ps| ensures ps[i].0 in r.vals && r.vals[ps[i].0] == ps[i].1 {
        assert ps[i] == rest[i - 1];
      }
    }
  }

  lemma SeqAssoc<T>(a: seq<T>, b: seq<T>, c: seq<T>)
    ensures (a + b) + c == a + (b + c)
  {
  }

  /** The tail of pairs with distinct keys has distinct keys, none equal to the head's key. */
  lemma FreshTail<K, V>(ps: seq<(K, V)>)
    requires |ps| > 0 && Distinct(Firsts(ps))
    ensures Distinct(Firsts(ps[1..]))
    ensures ps[0].0 !in Firsts(ps[1..])
  {
    var rest := ps[1..];
    assert forall i :: 0 <= i < |rest| ==> Firsts(rest)[i] == Firsts(ps)[i + 1];
  }

  /** `dict(ps)`. */
  function FromPairs<K(==,!new), V>(ps: seq<(K, V)>): (d: Dict<K, V>)
    ensures d.Valid()
  {
    Insert(Empty(), ps)
  }

  /**
   `d.update(other)`: every key of `other` takes `other`'s value, every other
   key of `d` keeps its value, the keys of `d` keep their order at the front,
   and when `other` brings no new key the key order does not change at all.
   */
  function Update<K(==,!new), V>(d: Dict<K, V>, other: Dict<K, V>): (r: Dict<K, V>)
    requires d.Valid() && other.Valid()
    ensures r.Valid()
    ensures r.vals.Keys == d.vals.Keys + other.vals.Keys
    ensures forall k :: k in other.vals ==> r.vals[k] == other.vals[k]
    ensures forall k :: k in d.vals && k !in other.vals ==> r.vals[k] == d.vals[k]
    ensures d.keys <= r.keys
    ensures other.vals.Keys <= d.vals.Keys ==> r.keys == d.keys
  {
    var ps := Items(other);
    ItemsKeySet(other);
    InsertAgrees(d, ps, other.vals);
    Insert(d, ps)
  }

  lemma ItemsKeySet<K(!new), V>(d: Dict<K, V>)
    requires d.Valid()
    ensures KeySet(Items(d)) == d.vals.Keys
  {
    KeySetIsFirsts(Items(d));
    assert Firsts(Items(d)) == d.keys;
  }

  /** The key set of pairs is the set of their first components. */
  lemma {:induction false} KeySetIsFirsts<K, V>(ps: seq<(K, V)>)
    ensures forall k :: k in KeySet(ps) <==> k in Firsts(ps)
  {
    if ps != [] {
      KeySetIsFirsts(ps[1..]);
      assert Firsts(ps) == [ps[0].0] + Firsts(ps[1..]);
    }
  }

  function Min(a: nat, b: nat): nat {
    if a <= b then a else b
  }

  /** `zip(xs, ys)`: pairs up elements by position and stops at the end of the shorter input. */
  function Zip<A, B>(xs: seq<A>, ys: seq<B>): (ps: seq<(A, B)>)
    ensures |ps| == Min(|xs|, |ys|)
    ensures forall i :: 0 <= i < |ps| ==> ps[i] == (xs[i], ys[i])
  {
    if xs == [] || ys == [] then [] else [(xs[0], ys[0])] + Zip(xs[1..], ys[1..])
  }

  /**
   `dict(zip(keys, values))` with distinct keys has one entry per zipped pair:
   its keys are the first min(|keys|, |values|) keys in order, and each maps
   to the value at the same position.
   */
  lemma DictOfZip<K(!new), V>(keys: seq<K>, values: seq<V>)
    requires Distinct(keys)
    ensures var d := FromPairs(Zip(keys, values));
      && d.keys == keys[..Min(|keys|, |values|)]
      && |d.vals| == Min(|keys|, |values|)
      && (forall j :: 0 <= j < Min(|keys|, |values|) ==> d.vals[keys[j]] == values[j])
  {
    ZipKeys(keys, values);
    ZipValues(keys, values);
    var d := FromPairs(Zip(keys, values));
    assert d.vals.Keys == set k | k in d.keys;
    DistinctCard(d.keys);
  }

  lemma ZipKeys<K(!new), V>(keys: seq<K>, values: seq<V>)
    requires Distinct(keys)
    ensures FromPairs(Zip(keys, values)).keys == keys[..Min(|keys|, |values|)]
  {
    var ps := Zip(keys, values);
    assert Firsts(ps) == keys[..Min(|keys|, |values|)];
    InsertFresh(Empty(), ps);
  }

  /** Only the zipped keys are present: none of those past the end of `values`. */
  lemma ZipDomain<K(!new), V>(keys: seq<K>, values: seq<V>)
    requires Distinct(keys)
    ensures forall k :: k in FromPairs(Zip(keys, values)).vals ==> k in keys
    ensures forall j :: |values| <= j < |keys| ==> keys[j] !in FromPairs(Zip(keys, values)).vals
  {
    ZipKeys(keys, values);
    PrefixDomain(FromPairs(Zip(keys, values)), keys, Min(|keys|, |values|));
  }

  /** A dict whose keys are the first n of some distinct keys holds none of the others. */
  lemma PrefixDomain<K(!new), V>(d: Dict<K, V>, keys: seq<K>, n: nat)
    requires d.Valid() && Distinct(keys) && n <= |keys| && d.keys == keys[..n]
    ensures forall k :: k in d.vals ==> k in keys
    ensures forall j :: n <= j < |keys| ==> keys[j] !in d.vals
  {
    forall k | k in d.vals ensures k in keys {
      var i :| 0 <= i < n && keys[..n][i] == k;
      assert keys[i] == k;
    }
    forall j | n <= j < |keys|
      ensures keys[j] !in d.vals
    {
      assert forall i :: 0 <= i < n ==> keys[..n][i] != keys[j];
    }
  }

  lemma ZipValues<K(!new), V>(keys: seq<K>, values: seq<V>)
    requires Distinct(keys)
    ensures forall j :: 0 <= j < Min(|keys|, |values|) ==>
      keys[j] in FromPairs(Zip(keys, values)).vals && FromPairs(Zip(keys, values)).vals[keys[j]] == values[j]
  {
    var ps := Zip(keys, values);
    assert Firsts(ps) == keys[..Min(|keys|, |values|)];
    InsertDistinct(Empty(), ps);
    forall j | 0 <= j < Min(|keys|, |values|)
      ensures keys[j] in FromPairs(ps).vals && FromPairs(ps).vals[keys[j]] == values[j]
    {
      assert ps[j] == (keys[j], values[j]);
    }
  }

  /** A sequence without repetitions has as many distinct elements as positions. */
  lemma {:induction false} DistinctCard<T>(s: seq<T>)
    requires Distinct(s)
    ensures |set x | x in s| == |s|
  {
    if s != [] {
      var t := s[1..];
      DistinctCard(t);
      assert (set x | x in s) == (set x | x in t) + {s[0]};
      assert s[0] !in t;
    }
  }
}
