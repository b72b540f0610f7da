/** A Python dict as the scripts use it: its keys in insertion order, together
    with the key-to-value map. Assigning to a key already present keeps its
    position; a new key goes to the end. Iterating a dict, `list(d.keys())`,
    `d.items()` and the order of ties after a stable sort all follow `keys`. */
module Dicts {

  datatype Dict<K, V> = Dict(keys: seq<K>, items: map<K, V>)

  ghost predicate Distinct<T>(s: seq<T>) {
    forall i, j :: 0 <= i < j < |s| ==> s[i] != s[j]
  }

  lemma DistinctAppend<T>(a: seq<T>, b: seq<T>)
    requires Distinct(a + b)
    ensures forall i, j :: 0 <= i < |a| && 0 <= j < |b| ==> a[i] != b[j]
  {
    forall i, j | 0 <= i < |a| && 0 <= j < |b| ensures a[i] != b[j] {
      assert (a + b)[i] == a[i] && (a + b)[|a| + j] == b[j];
    }
  }

  lemma DistinctTail<T>(s: seq<T>, i: nat)
    requires Distinct(s) && i < |s|
    ensures s[i] !in s[i + 1..]
  {
    var t := s[i + 1..];
    forall j | 0 <= j < |t| ensures t[j] != s[i] {
      assert t[j] == s[i + 1 + j];
    }
  }

  lemma DistinctCons<T>(a: T, s: seq<T>)
    ensures Distinct([a] + s) <==> a !in s && Distinct(s)
  {
    var t := [a] + s;
    if Distinct(t) {
      forall k | 0 <= k < |s| ensures s[k] != a {
        assert t[k + 1] == s[k] && t[0] == a;
      }
      forall i, j | 0 <= i < j < |s| ensures s[i] != s[j] {
        assert t[i + 1] == s[i] && t[j + 1] == s[j];
      }
    }
    if a !in s && Distinct(s) {
      forall i, j | 0 <= i < j < |t| ensures t[i] != t[j] {
        assert t[j] == s[j - 1];
        if i > 0 {
          assert t[i] == s[i - 1];
        }
      }
    }
  }

  /** A sequence is duplicate-free exactly when nothing occurs in it twice. */
  lemma {:induction false} DistinctCount<T>(s: seq<T>)
    ensures Distinct(s) <==> forall x :: multiset(s)[x] <= 1
  {
    if s != [] {
      DistinctCount(s[1..]);
      DistinctCons(s[0], s[1..]);
      assert s == [s[0]] + s[1..];
      assert multiset(s) == multiset{s[0]} + multiset(s[1..]);
      if forall x :: multiset(s)[x] <= 1 {
        assert multiset(s)[s[0]] <= 1;
        forall x ensures multiset(s[1..])[x] <= 1 {
          assert multiset(s)[x] <= 1;
        }
      }
    }
  }

  ghost predicate Valid<K(!new), V>(d: Dict<K, V>) {
    Distinct(d.keys) && forall k :: k in d.items <==> k in d.keys
  }

  function Empty<K(==,!new), V>(): (d: Dict<K, V>)
    ensures Valid(d)
  {
    Dict([], map[])
  }

  /** d.get(k, default) */
  function Get<K(==,!new), V>(d: Dict<K, V>, k: K, default: V): V {
    if k in d.items then d.items[k] else default
  }

  /** d[k] = v */
  function Put<K(==,!new), V>(d: Dict<K, V>, k: K, v: V): (r: Dict<K, V>)
    requires Valid(d)
    ensures Valid(r)
  {
    if k in d.items then Dict(d.keys, d.items[k := v]) else Dict(d.keys + [k], d.items[k := v])
  }

  /** d[k] = d.get(k, 0) + v */
  function Add<K(==,!new)>(d: Dict<K, int>, k: K, v: int): (r: Dict<K, int>)
    requires Valid(d)
    ensures Valid(r)
  {
    Put(d, k, Get(d, k, 0) + v)
  }

  /** `list(d.items())` */
  function Items<K(==,!new), V>(d: Dict<K, V>): (r: seq<(K, V)>)
    requires Valid(d)
    ensures |r| == |d.keys|
    ensures forall i :: 0 <= i < |r| ==> r[i].0 == d.keys[i] && r[i].0 in d.items && r[i].1 == d.items[r[i].0]
  {
    seq(|d.keys|, i requires 0 <= i < |d.keys| => (d.keys[i], d.items[d.keys[i]]))
  }

  // ---------------------------------------------------------------------------
  // Group-by sum: the loop `d[k] = d.get(k, 0) + v` over a sequence of pairs.

  /** The dict left after running `d[k] = d.get(k, 0) + v` for each pair (k, v) of ps, in order. */
  function AccumulateFrom<K(==,!new)>(d: Dict<K, int>, ps: seq<(K, int)>): (r: Dict<K, int>)
    requires Valid(d)
    ensures Valid(r)
    decreases |ps|
  {
    if ps == [] then d else AccumulateFrom(Add(d, ps[0].0, ps[0].1), ps[1..])
  }

  /** The same loop started from an empty dict. */
  function Accumulate<K(==,!new)>(ps: seq<(K, int)>): Dict<K, int> {
    AccumulateFrom(Empty(), ps)
  }

  /** `for k, v in pairs: d[k] = d.get(k, 0) + v` */
  method AccumulateLoop<K(==,!new)>(ps: seq<(K, int)>) returns (d: Dict<K, int>)
    ensures d == Accumulate(ps) && Valid(d)
  {
    d := Empty();
    var i := 0;
    while i < |ps|
      invariant 0 <= i <= |ps| && Valid(d)
      invariant Accumulate(ps) == AccumulateFrom(d, ps[i..])
    {
      assert ps[i..] == [ps[i]] + ps[i + 1..];
      AccumulateFromCons(d, ps[i], ps[i + 1..]);
      d := Add(d, ps[i].0, ps[i].1);
      i := i + 1;
    }
  }

  lemma AccumulateFromCons<K(!new)>(d: Dict<K, int>, p: (K, int), ps: seq<(K, int)>)
    requires Valid(d)
    ensures AccumulateFrom(d, [p] + ps) == AccumulateFrom(Add(d, p.0, p.1), ps)
  {
    assert ([p] + ps)[0] == p && ([p] + ps)[1..] == ps;
  }

  lemma {:induction false} AccumulateFromAppend<K(!new)>(d: Dict<K, int>, ps: seq<(K, int)>, qs: seq<(K, int)>)
    requires Valid(d)
    ensures AccumulateFrom(d, ps + qs) == AccumulateFrom(AccumulateFrom(d, ps), qs)
    decreases |ps|
  {
    if ps == [] {
      assert ps + qs == qs;
    } else {
      assert (ps + qs)[0] == ps[0] && (ps + qs)[1..] == ps[1..] + qs;
      AccumulateFromAppend(Add(d, ps[0].0, ps[0].1), ps[1..], qs);
    }
  }

  /** The keys of the pairs, in order. */
  function KeysOf<K(==,!new), V>(ps: seq<(K, V)>): seq<K> {
    seq(|ps|, i requires 0 <= i < |ps| => ps[i].0)
  }

  /** The sum of the values paired with k. */
  function SumFor<K(==,!new)>(ps: seq<(K, int)>, k: K): int {
    if ps == [] then 0 else (if ps[0].0 == k then ps[0].1 else 0) + SumFor(ps[1..], k)
  }

  /** The sum of all the values. */
  function SumAll<K(==,!new)>(ps: seq<(K, int)>): int {
    if ps == [] then 0 else ps[0].1 + SumAll(ps[1..])
  }

  lemma KeysOfCons<K(!new), V>(ps: seq<(K, V)>)
    requires ps != []
    ensures KeysOf(ps) == [ps[0].0] + KeysOf(ps[1..])
  {
  }

  lemma {:induction false} AccumulateFromAt<K(!new)>(d: Dict<K, int>, ps: seq<(K, int)>, k: K)
    requires Valid(d)
    ensures Get(AccumulateFrom(d, ps), k, 0) == Get(d, k, 0) + SumFor(ps, k)
    ensures k in AccumulateFrom(d, ps).items <==> k in d.items || k in KeysOf(ps)
    decreases |ps|
  {
    if ps != [] {
      AccumulateFromAt(Add(d, ps[0].0, ps[0].1), ps[1..], k);
      KeysOfCons(ps);
    }
  }

  /** The value under k is the sum of the values paired with k, and k is a key
      exactly when some pair carries it. */
  lemma AccumulateAt<K(!new)>(ps: seq<(K, int)>, k: K)
    ensures Get(Accumulate(ps), k, 0) == SumFor(ps, k)
    ensures k in Accumulate(ps).items <==> k in KeysOf(ps)
  {
    AccumulateFromAt(Empty(), ps, k);
  }

  /** The elements of ks appended to seen, each skipped when already present:
      the order in which a dict first meets its keys. */
  function DedupFrom<T(==)>(seen: seq<T>, ks: seq<T>): seq<T>
    decreases |ks|
  {
    if ks == [] then seen else DedupFrom(if ks[0] in seen then seen else seen + [ks[0]], ks[1..])
  }

  /** The distinct elements of ks in first-seen order. */
  function Dedup<T(==)>(ks: seq<T>): seq<T> {
    DedupFrom([], ks)
  }

  lemma {:induction false} DedupFromProps<T(!new)>(seen: seq<T>, ks: seq<T>)
    requires Distinct(seen)
    ensures Distinct(DedupFrom(seen, ks))
    ensures forall x :: x in DedupFrom(seen, ks) <==> x in seen || x in ks
    ensures |seen| <= |DedupFrom(seen, ks)| && DedupFrom(seen, ks)[..|seen|] == seen
    decreases |ks|
  {
    if ks != [] {
      var seen' := if ks[0] in seen then seen else seen + [ks[0]];
      DedupFromProps(seen', ks[1..]);
      assert ks == [ks[0]] + ks[1..];
      assert DedupFrom(seen, ks)[..|seen'|][..|seen|] == seen;
    }
  }

  lemma {:induction false} DedupFromDistinct<T>(seen: seq<T>, ks: seq<T>)
    requires Distinct(seen + ks)
    ensures DedupFrom(seen, ks) == seen + ks
    decreases |ks|
  {
    if ks == [] {
      assert seen + ks == seen;
    } else {
      DistinctAppend(seen, ks);
      assert (seen + [ks[0]]) + ks[1..] == seen + ks;
      DedupFromDistinct(seen + [ks[0]], ks[1..]);
    }
  }

  /** Dedup keeps each element once, loses none, and leaves a sequence without
      repetitions as it is. */
  lemma DedupProps<T(!new)>(ks: seq<T>)
    ensures Distinct(Dedup(ks))
    ensures forall x :: x in Dedup(ks) <==> x in ks
    ensures Distinct(ks) ==> Dedup(ks) == ks
  {
    DedupFromProps([], ks);
    if Distinct(ks) {
      assert [] + ks == ks;
      DedupFromDistinct([], ks);
    }
  }

  lemma {:induction false} AccumulateFromKeys<K(!new)>(d: Dict<K, int>, ps: seq<(K, int)>)
    requires Valid(d)
    ensures AccumulateFrom(d, ps).keys == DedupFrom(d.keys, KeysOf(ps))
    decreases |ps|
  {
    if ps != [] {
      KeysOfCons(ps);
      AccumulateFromKeys(Add(d, ps[0].0, ps[0].1), ps[1..]);
    }
  }

  /** The dict's keys are the pairs' keys in first-seen order, each once. */
  lemma AccumulateKeys<K(!new)>(ps: seq<(K, int)>)
    ensures Accumulate(ps).keys == Dedup(KeysOf(ps))
    ensures Distinct(Accumulate(ps).keys)
    ensures forall k :: k in Accumulate(ps).keys <==> k in KeysOf(ps)
  {
    AccumulateFromKeys(Empty(), ps);
    DedupProps(KeysOf(ps));
  }

  // ---------------------------------------------------------------------------
  // Conservation: sum(d.values())

  /** The sum of m's values at the given keys (a missing key counts 0). */
  function SumOver<K(==,!new)>(keys: seq<K>, m: map<K, int>): int {
    if keys == [] then 0 else (if keys[0] in m then m[keys[0]] else 0) + SumOver(keys[1..], m)
  }

  /** sum(d.values()) */
  function Total<K(==,!new)>(d: Dict<K, int>): int {
    SumOver(d.keys, d.items)
  }

  lemma {:induction false} SumOverAppend<K(!new)>(keys: seq<K>, k: K, m: map<K, int>)
    ensures SumOver(keys + [k], m) == SumOver(keys, m) + (if k in m then m[k] else 0)
  {
    if keys != [] {
      assert (keys + [k])[1..] == keys[1..] + [k];
      SumOverAppend(keys[1..], k, m);
    }
  }

  lemma {:induction false} SumOverUpdateOutside<K(!new)>(keys: seq<K>, m: map<K, int>, k: K, v: int)
    requires k !in keys
    ensures SumOver(keys, m[k := v]) == SumOver(keys, m)
  {
    if keys != [] {
      SumOverUpdateOutside(keys[1..], m, k, v);
    }
  }

  lemma {:induction false} SumOverUpdateInside<K(!new)>(keys: seq<K>, m: map<K, int>, k: K, v: int)
    requires Distinct(keys) && k in keys && k in m
    ensures SumOver(keys, m[k := v]) == SumOver(keys, m) - m[k] + v
  {
    if keys[0] == k {
      assert k !in keys[1..];
      SumOverUpdateOutside(keys[1..], m, k, v);
    } else {
      SumOverUpdateInside(keys[1..], m, k, v);
    }
  }

  lemma {:induction false} SumOverConcat<K(!new)>(a: seq<K>, b: seq<K>, m: map<K, int>)
    ensures SumOver(a + b, m) == SumOver(a, m) + SumOver(b, m)
  {
    if a != [] {
      assert (a + b)[1..] == a[1..] + b;
      SumOverConcat(a[1..], b, m);
    } else {
      assert a + b == b;
    }
  }

  lemma {:induction false} SumOverNone<K(!new)>(a: seq<K>, m: map<K, int>)
    requires forall k :: k in a ==> k !in m
    ensures SumOver(a, m) == 0
  {
    if a != [] {
      SumOverNone(a[1..], m);
    }
  }

  /** Dropping the element at j from a duplicate-free sequence drops exactly
      that element and keeps the rest duplicate-free. */
  lemma DistinctRemove<K>(b: seq<K>, j: nat)
    requires Distinct(b) && j < |b|
    ensures Distinct(b[..j] + b[j + 1..])
    ensures forall k :: k in b[..j] + b[j + 1..] <==> k in b && k != b[j]
  {
    var b' := b[..j] + b[j + 1..];
    forall k ensures k in b' <==> k in b && k != b[j] {
      if k in b[..j] {
        var i :| 0 <= i < j && b[..j][i] == k;
        assert b[i] == k;
      }
      if k in b[j + 1..] {
        var i :| 0 <= i < |b[j + 1..]| && b[j + 1..][i] == k;
        assert b[j + 1 + i] == k;
      }
      if k in b && k != b[j] {
        var i :| 0 <= i < |b| && b[i] == k;
        if i < j {
          assert b'[i] == k;
        } else {
          assert b'[i - 1] == k;
        }
      }
    }
    forall p, q | 0 <= p < q < |b'| ensures b'[p] != b'[q] {
      var p' := if p < j then p else p + 1;
      var q' := if q < j then q else q + 1;
      assert b'[p] == b[p'] && b'[q] == b[q'];
    }
  }

  lemma SumOverRemove<K(!new)>(b: seq<K>, j: nat, m: map<K, int>)
    requires j < |b|
    ensures SumOver(b, m) == (if b[j] in m then m[b[j]] else 0) + SumOver(b[..j] + b[j + 1..], m)
  {
    assert b == b[..j] + ([b[j]] + b[j + 1..]);
    SumOverConcat(b[..j], [b[j]] + b[j + 1..], m);
    SumOverConcat(b[..j], b[j + 1..], m);
  }

  /** The sum over a duplicate-free sequence of keys depends only on which
      keys of m it holds: neither the order nor keys missing from m matter. */
  lemma {:induction false} SumOverSame<K(!new)>(a: seq<K>, b: seq<K>, m: map<K, int>)
    requires Distinct(a) && Distinct(b)
    requires forall k :: k in m ==> (k in a <==> k in b)
    ensures SumOver(a, m) == SumOver(b, m)
    decreases |a|
  {
    if a == [] {
      SumOverNone(b, m);
    } else {
      var x := a[0];
      DistinctCons(x, a[1..]);
      assert a == [x] + a[1..];
      if x !in m {
        SumOverSame(a[1..], b, m);
      } else {
        var j :| 0 <= j < |b| && b[j] == x;
        SumOverRemove(b, j, m);
        DistinctRemove(b, j);
        SumOverSame(a[1..], b[..j] + b[j + 1..], m);
      }
    }
  }

  lemma AddTotal<K(!new)>(d: Dict<K, int>, k: K, v: int)
    requires Valid(d)
    ensures Total(Add(d, k, v)) == Total(d) + v
  {
    if k in d.items {
      SumOverUpdateInside(d.keys, d.items, k, d.items[k] + v);
    } else {
      SumOverAppend(d.keys, k, d.items[k := v]);
      SumOverUpdateOutside(d.keys, d.items, k, v);
    }
  }

  lemma {:induction false} AccumulateFromTotal<K(!new)>(d: Dict<K, int>, ps: seq<(K, int)>)
    requires Valid(d)
    ensures Total(AccumulateFrom(d, ps)) == Total(d) + SumAll(ps)
    decreases |ps|
  {
    if ps != [] {
      AddTotal(d, ps[0].0, ps[0].1);
      AccumulateFromTotal(Add(d, ps[0].0, ps[0].1), ps[1..]);
    }
  }

  /** The dict's values add up to the sum of all the pairs' values. */
  lemma AccumulateTotal<K(!new)>(ps: seq<(K, int)>)
    ensures Total(Accumulate(ps)) == SumAll(ps)
  {
    AccumulateFromTotal(Empty(), ps);
  }

  // ---------------------------------------------------------------------------
  // Counting: every pair carries 1.

  function Units<K(==,!new)>(ks: seq<K>): seq<(K, int)> {
    seq(|ks|, i requires 0 <= i < |ks| => (ks[i], 1))
  }

  lemma {:induction false} UnitsSums<K(!new)>(ks: seq<K>, k: K)
    ensures SumFor(Units(ks), k) == multiset(ks)[k]
    ensures SumAll(Units(ks)) == |ks|
    ensures KeysOf(Units(ks)) == ks
  {
    if ks != [] {
      assert Units(ks)[1..] == Units(ks[1..]);
      assert ks == [ks[0]] + ks[1..];
      UnitsSums(ks[1..], k);
    }
  }

  lemma UnitsAppend<K(!new)>(a: seq<K>, b: seq<K>)
    ensures Units(a + b) == Units(a) + Units(b)
  {
  }

  /** Counting occurrences: the count under k is how often k occurs, every key
      occurring is counted at least once, and the counts add up to the length. */
  lemma CountAt<K(!new)>(ks: seq<K>, k: K)
    ensures Get(Accumulate(Units(ks)), k, 0) == multiset(ks)[k]
    ensures k in Accumulate(Units(ks)).items <==> k in ks
    ensures k in Accumulate(Units(ks)).items ==> Accumulate(Units(ks)).items[k] >= 1
    ensures Total(Accumulate(Units(ks))) == |ks|
  {
    AccumulateAt(Units(ks), k);
    UnitsSums(ks, k);
    AccumulateTotal(Units(ks));
  }

  // ---------------------------------------------------------------------------
  // dict(pairs)

  function PutAll<K(==,!new), V>(d: Dict<K, V>, ps: seq<(K, V)>): (r: Dict<K, V>)
    requires Valid(d)
    ensures Valid(r)
    decreases |ps|
  {
    if ps == [] then d else PutAll(Put(d, ps[0].0, ps[0].1), ps[1..])
  }

  /** `for k, v in pairs: d[k] = v` */
  method PutAllLoop<K(==,!new), V>(ps: seq<(K, V)>) returns (d: Dict<K, V>)
    ensures d == FromPairs(ps) && Valid(d)
  {
    d := Empty();
    var i := 0;
    while i < |ps|
      invariant 0 <= i <= |ps| && Valid(d)
      invariant FromPairs(ps) == PutAll(d, ps[i..])
    {
      assert ps[i..][0] == ps[i] && ps[i..][1..] == ps[i + 1..];
      d := Put(d, ps[i].0, ps[i].1);
      i := i + 1;
    }
  }

  /** dict(pairs) */
  function FromPairs<K(==,!new), V>(ps: seq<(K, V)>): Dict<K, V> {
    PutAll(Empty(), ps)
  }

  lemma {:induction false} PutAllKeys<K(!new), V>(d: Dict<K, V>, ps: seq<(K, V)>)
    requires Valid(d)
    ensures PutAll(d, ps).keys == DedupFrom(d.keys, KeysOf(ps))
    decreases |ps|
  {
    if ps != [] {
      KeysOfCons(ps);
      PutAllKeys(Put(d, ps[0].0, ps[0].1), ps[1..]);
    }
  }

  lemma {:induction false} PutAllOutside<K(!new), V>(d: Dict<K, V>, ps: seq<(K, V)>, k: K)
    requires Valid(d) && k in d.items && k !in KeysOf(ps)
    ensures k in PutAll(d, ps).items && PutAll(d, ps).items[k] == d.items[k]
    decreases |ps|
  {
    if ps != [] {
      KeysOfCons(ps);
      PutAllOutside(Put(d, ps[0].0, ps[0].1), ps[1..], k);
    }
  }

  /** Under dict(pairs) the last pair with a given key decides its value. */
  lemma {:induction false} PutAllLast<K(!new), V>(d: Dict<K, V>, ps: seq<(K, V)>, i: nat)
    requires Valid(d) && i < |ps| && ps[i].0 !in KeysOf(ps[i + 1..])
    ensures ps[i].0 in PutAll(d, ps).items && PutAll(d, ps).items[ps[i].0] == ps[i].1
    decreases |ps|
  {
    var d' := Put(d, ps[0].0, ps[0].1);
    if i == 0 {
      PutAllOutside(d', ps[1..], ps[0].0);
    } else {
      assert ps[1..][i - 1] == ps[i] && ps[1..][i..] == ps[i + 1..];
      PutAllLast(d', ps[1..], i - 1);
    }
  }

  /** dict(pairs) of pairs with distinct keys keeps every pair, in order. */
  lemma FromPairsDistinct<K(!new), V>(ps: seq<(K, V)>)
    requires Distinct(KeysOf(ps))
    ensures FromPairs(ps).keys == KeysOf(ps)
    ensures forall i :: 0 <= i < |ps| ==> ps[i].0 in FromPairs(ps).items && FromPairs(ps).items[ps[i].0] == ps[i].1
  {
    PutAllKeys(Empty(), ps);
    DedupProps(KeysOf(ps));
    forall i | 0 <= i < |ps|
      ensures ps[i].0 in FromPairs(ps).items && FromPairs(ps).items[ps[i].0] == ps[i].1
    {
      assert KeysOf(ps[i + 1..]) == KeysOf(ps)[i + 1..];
      DistinctTail(KeysOf(ps), i);
      PutAllLast(Empty(), ps, i);
    }
  }
  /** dict(ps) for pairs drawn from src with distinct keys: its keys are those
      of the pairs, each with the value src has for it. */
  lemma FromPairsWithin<K(!new), V>(ps: seq<(K, V)>, src: Dict<K, V>)
    requires Distinct(KeysOf(ps))
    requires forall i :: 0 <= i < |ps| ==> ps[i].0 in src.items && ps[i].1 == src.items[ps[i].0]
    ensures FromPairs(ps).keys == KeysOf(ps)
    ensures forall k :: k in FromPairs(ps).items ==> k in src.items && FromPairs(ps).items[k] == src.items[k]
  {
    var d := FromPairs(ps);
    FromPairsDistinct(ps);
    forall k | k in d.items ensures k in src.items && d.items[k] == src.items[k] {
      var i :| 0 <= i < |ps| && KeysOf(ps)[i] == k;
    }
  }

}
