// Python dictionaries as sequences of key/value pairs in insertion order.
// `d[k] = v` replaces the value of a present key where it stands and appends a
// new key at the end; a comprehension `{f(x): g(x) for x in xs}` is the same
// assignments made left to right, so the last value given to a key wins.

module Assoc {
  import opened Wrappers

  type Dict<K, V> = seq<(K, V)>

  function Keys<K, V>(d: Dict<K, V>): (ks: seq<K>)
    ensures |ks| == |d| && forall i :: 0 <= i < |d| ==> ks[i] == d[i].0
  {
    seq(|d|, i requires 0 <= i < |d| => d[i].0)
  }

  function Values<K, V>(d: Dict<K, V>): (vs: seq<V>)
    ensures |vs| == |d| && forall i :: 0 <= i < |d| ==> vs[i] == d[i].1
  {
    seq(|d|, i requires 0 <= i < |d| => d[i].1)
  }

  ghost predicate UniqueKeys<K, V>(d: Dict<K, V>) {
    forall i, j :: 0 <= i < j < |d| ==> d[i].0 != d[j].0
  }

  /** Position of `k` among the keys of `d`, the first if there are several. */
  function KeyIndex<K(==), V>(d: Dict<K, V>, k: K): (r: Option<nat>)
    ensures r.None? <==> k !in Keys(d)
    ensures r.Some? ==> r.value < |d| && d[r.value].0 == k && k !in Keys(d)[..r.value]
    decreases |d|
  {
    if d == [] then None
    else if d[0].0 == k then Some(0)
    else
      match KeyIndex(d[1..], k)
      case None => None
      case Some(i) =>
        assert Keys(d)[..i + 1] == [d[0].0] + Keys(d[1..])[..i];
        Some(i + 1)
  }

  /** No key before that position is `k`. */
  lemma KeyIndexFirst<K, V>(d: Dict<K, V>, k: K)
    ensures KeyIndex(d, k).Some? ==> forall j :: 0 <= j < KeyIndex(d, k).value ==> d[j].0 != k
  {
    if KeyIndex(d, k).Some? {
      var n := KeyIndex(d, k).value;
      forall j | 0 <= j < n ensures d[j].0 != k {
        assert Keys(d)[..n][j] == d[j].0;
      }
    }
  }

  /** `d.get(k)`. */
  function Get<K(==), V>(d: Dict<K, V>, k: K): (r: Option<V>)
    ensures r.None? <==> k !in Keys(d)
    ensures r.Some? ==> exists i :: 0 <= i < |d| && d[i] == (k, r.value)
  {
    match KeyIndex(d, k)
    case None => None
    case Some(i) => Some(d[i].1)
  }

  /** `d[k] = v`. */
  function Insert<K(==), V>(d: Dict<K, V>, k: K, v: V): (r: Dict<K, V>)
    ensures k in Keys(d) ==> |r| == |d| && Keys(r) == Keys(d)
    ensures k !in Keys(d) ==> r == d + [(k, v)]
  {
    match KeyIndex(d, k)
    case None => d + [(k, v)]
    case Some(i) => d[i := (k, v)]
  }

  lemma InsertUnique<K, V>(d: Dict<K, V>, k: K, v: V)
    requires UniqueKeys(d)
    ensures UniqueKeys(Insert(d, k, v))
  {
  }

  lemma GetInsert<K, V>(d: Dict<K, V>, k: K, v: V, k': K)
    requires UniqueKeys(d)
    ensures Get(Insert(d, k, v), k') == if k' == k then Some(v) else Get(d, k')
  {
    var r := Insert(d, k, v);
    InsertUnique(d, k, v);
    if k' in Keys(d) {
      GetUnique(d, k');
      var j := KeyIndex(d, k').value;
      assert r[j].0 == k';
      GetUnique(r, k');
      if k' != k {
        assert r[j] == d[j];
      }
    } else if k' == k {
      assert r[|d|] == (k, v);
      GetUnique(r, k');
    } else {
      assert k' !in Keys(r);
    }
  }

  /** `d[k] = v` adds no pair other than `(k, v)`. */
  lemma InsertPairs<K, V>(d: Dict<K, V>, k: K, v: V)
    ensures forall p :: p in Insert(d, k, v) ==> p in d || p == (k, v)
  {
    match KeyIndex(d, k)
    case None =>
    case Some(i) =>
      forall p | p in Insert(d, k, v) ensures p in d || p == (k, v) {
        var j :| 0 <= j < |d| && Insert(d, k, v)[j] == p;
        if j != i {
          assert p == d[j];
        }
      }
  }

  /** After `d[k] = v`, `d.get(k)` is `v`, whatever else `d` holds. */
  lemma GetInsertSame<K, V>(d: Dict<K, V>, k: K, v: V)
    ensures Get(Insert(d, k, v), k) == Some(v)
  {
    var r := Insert(d, k, v);
    match KeyIndex(d, k)
    case None =>
      assert Keys(r)[|d|] == k;
    case Some(i) =>
      KeyIndexFirst(d, k);
      KeyIndexIs(r, k, i);
  }

  /** With unique keys, `Get` finds the one pair holding the key. */
  lemma GetUnique<K, V>(d: Dict<K, V>, k: K)
    requires UniqueKeys(d) && k in Keys(d)
    ensures exists i :: 0 <= i < |d| && d[i].0 == k
    ensures forall i :: 0 <= i < |d| && d[i].0 == k ==> Get(d, k) == Some(d[i].1)
  {
  }

  /** The keys of `ks` in order of first appearance. */
  function Dedup<K(==)>(ks: seq<K>): seq<K>
    decreases |ks|
  {
    if ks == [] then []
    else
      var d := Dedup(ks[..|ks| - 1]);
      if ks[|ks| - 1] in d then d else d + [ks[|ks| - 1]]
  }

  /** The value of the last pair of `ps` whose key is `k`. */
  function LastValue<K(==), V>(ps: seq<(K, V)>, k: K): Option<V>
    decreases |ps|
  {
    if ps == [] then None
    else if ps[|ps| - 1].0 == k then Some(ps[|ps| - 1].1)
    else LastValue(ps[..|ps| - 1], k)
  }

  /** The last value of a key among pairs that each give their key the
      value `f` gives it is that value. */
  lemma {:induction false} LastValueMapped<K, V>(ps: seq<(K, V)>, ks: seq<K>, f: K -> V, k: K)
    requires |ps| == |ks| && forall j :: 0 <= j < |ks| ==> ps[j] == (ks[j], f(ks[j]))
    requires k in ks
    ensures LastValue(ps, k) == Some(f(k))
    decreases |ps|
  {
    var n := |ps| - 1;
    if ks[n] != k {
      assert k in ks[..n];
      LastValueMapped(ps[..n], ks[..n], f, k);
    }
  }

  /** The dictionary built by storing the pairs one by one, from empty. */
  function FromPairs<K(==), V>(ps: seq<(K, V)>): Dict<K, V>
    decreases |ps|
  {
    if ps == [] then []
    else
      var last := ps[|ps| - 1];
      Insert(FromPairs(ps[..|ps| - 1]), last.0, last.1)
  }

  /** Building a dictionary from pairs keeps the first position of each key and
      the last value given to it. */
  lemma {:induction false} FromPairsSpec<K, V>(ps: seq<(K, V)>)
    ensures UniqueKeys(FromPairs(ps))
    ensures Keys(FromPairs(ps)) == Dedup(Keys(ps))
    ensures forall k :: Get(FromPairs(ps), k) == LastValue(ps, k)
    decreases |ps|
  {
    if ps != [] {
      var init, last := ps[..|ps| - 1], ps[|ps| - 1];
      FromPairsSpec(init);
      var d := FromPairs(init);
      InsertUnique(d, last.0, last.1);
      assert Keys(ps)[..|ps| - 1] == Keys(init);
      forall k ensures Get(FromPairs(ps), k) == LastValue(ps, k) {
        GetInsert(d, last.0, last.1, k);
      }
    }
  }

  lemma {:induction false} DedupSpec<K>(ks: seq<K>)
    ensures forall i, j :: 0 <= i < j < |Dedup(ks)| ==> Dedup(ks)[i] != Dedup(ks)[j]
    ensures forall k :: k in Dedup(ks) <==> k in ks
    decreases |ks|
  {
    if ks != [] {
      DedupSpec(ks[..|ks| - 1]);
      assert ks == ks[..|ks| - 1] + [ks[|ks| - 1]];
    }
  }

  /** Every pair of the built dictionary was given in `ps`, and it is empty
      only when `ps` is. */
  lemma {:induction false} FromPairsFrom<K, V>(ps: seq<(K, V)>)
    ensures forall p :: p in FromPairs(ps) ==> p in ps
    ensures FromPairs(ps) == [] <==> ps == []
    decreases |ps|
  {
    if ps != [] {
      var init, last := ps[..|ps| - 1], ps[|ps| - 1];
      FromPairsFrom(init);
      forall p | p in FromPairs(ps) ensures p in ps {
        if p != last {
          assert p in FromPairs(init);
          assert p in init;
        }
      }
    }
  }

  lemma FromPairsSnoc<K, V>(ps: seq<(K, V)>, p: (K, V))
    ensures FromPairs(ps + [p]) == Insert(FromPairs(ps), p.0, p.1)
  {
    assert (ps + [p])[..|ps|] == ps;
  }

  /** Pairs whose keys are already distinct build exactly themselves. */
  lemma {:induction false} FromPairsUnique<K, V>(ps: seq<(K, V)>)
    requires UniqueKeys(ps)
    ensures FromPairs(ps) == ps
    decreases |ps|
  {
    if ps != [] {
      var init, last := ps[..|ps| - 1], ps[|ps| - 1];
      FromPairsUnique(init);
      assert last.0 !in Keys(init);
      assert init + [last] == ps;
    }
  }

  /** `KeyIndex` is the first position holding the key. */
  lemma KeyIndexIs<K, V>(d: Dict<K, V>, k: K, i: nat)
    requires i < |d| && d[i].0 == k && forall j :: 0 <= j < i ==> d[j].0 != k
    ensures KeyIndex(d, k) == Some(i)
  {
    assert Keys(d)[i] == k;
    KeyIndexFirst(d, k);
    var m := KeyIndex(d, k).value;
    assert d[m].0 == k && d[i].0 == k;
  }

  /** `d[k] = v` leaves every other key's value alone, whether or not the keys
      of `d` are distinct. */
  lemma GetInsertOther<K, V>(d: Dict<K, V>, k: K, v: V, k': K)
    requires k' != k
    ensures Get(Insert(d, k, v), k') == Get(d, k')
  {
    var r := Insert(d, k, v);
    assert forall j :: 0 <= j < |d| && d[j].0 == k' ==> r[j] == d[j];
    match KeyIndex(d, k')
    case None =>
      assert k' !in Keys(r);
    case Some(i) =>
      KeyIndexFirst(d, k');
      KeyIndexIs(r, k', i);
  }

  /** Each pair of the built dictionary stands somewhere in `ps`. */
  lemma FromPairsAt<K, V>(ps: seq<(K, V)>, k: nat)
    requires k < |FromPairs(ps)|
    ensures exists m :: 0 <= m < |ps| && ps[m] == FromPairs(ps)[k]
  {
    FromPairsFrom(ps);
    assert FromPairs(ps)[k] in FromPairs(ps);
  }
}
