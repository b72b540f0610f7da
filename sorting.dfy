/** Python's `sorted`: a stable sort under a comparison `le(a, b)`, read as
    "a may come before b". `sorted(xs, key=k)` is the sort under
    `k(a) <= k(b)`; `reverse=True` keeps ties in their original order, so it is
    the sort under `k(a) >= k(b)`. Strings compare by code point, tuples
    field by field. */
module Sorting {
  import opened Dicts

  ghost predicate TotalPreorder<T(!new)>(le: (T, T) -> bool) {
    && (forall a, b :: le(a, b) || le(b, a))
    && (forall a, b, c :: le(a, b) && le(b, c) ==> le(a, c))
  }

  ghost predicate SortedBy<T>(s: seq<T>, le: (T, T) -> bool) {
    forall i, j :: 0 <= i < j < |s| ==> le(s[i], s[j])
  }

  /** Puts x before the first element it may precede. */
  function Insert<T>(x: T, ys: seq<T>, le: (T, T) -> bool): (r: seq<T>)
    ensures multiset(r) == multiset(ys) + multiset{x}
  {
    if ys == [] || le(x, ys[0]) then [x] + ys
    else
      assert ys == [ys[0]] + ys[1..];
      [ys[0]] + Insert(x, ys[1..], le)
  }

  /** The stable sort: sorted(xs) under le. */
  function Sort<T>(xs: seq<T>, le: (T, T) -> bool): (r: seq<T>)
    ensures multiset(r) == multiset(xs) && |r| == |xs|
  {
    if xs == [] then []
    else
      assert xs == [xs[0]] + xs[1..];
      Insert(xs[0], Sort(xs[1..], le), le)
  }

  lemma {:induction false} InsertSorted<T(!new)>(x: T, ys: seq<T>, le: (T, T) -> bool)
    requires TotalPreorder(le) && SortedBy(ys, le)
    ensures SortedBy(Insert(x, ys, le), le)
    decreases |ys|
  {
    if ys != [] && !le(x, ys[0]) {
      InsertSorted(x, ys[1..], le);
      var r := Insert(x, ys, le);
      var t := Insert(x, ys[1..], le);
      assert r == [ys[0]] + t;
      forall j | 0 <= j < |t| ensures le(ys[0], t[j]) {
        assert t[j] in multiset(t);
        assert t[j] == x || t[j] in multiset(ys[1..]);
        if t[j] != x {
          var k :| 0 <= k < |ys[1..]| && ys[1..][k] == t[j];
          assert ys[1..][k] == ys[k + 1];
        }
      }
    }
  }

  /** sorted() returns its input rearranged into order. */
  lemma {:induction false} SortSorted<T(!new)>(xs: seq<T>, le: (T, T) -> bool)
    requires TotalPreorder(le)
    ensures SortedBy(Sort(xs, le), le)
    decreases |xs|
  {
    if xs != [] {
      SortSorted(xs[1..], le);
      InsertSorted(xs[0], Sort(xs[1..], le), le);
    }
  }

  /** The elements of xs that tie with c, in their order in xs. */
  function Ties<T>(xs: seq<T>, c: T, le: (T, T) -> bool): seq<T> {
    if xs == [] then [] else (if le(xs[0], c) && le(c, xs[0]) then [xs[0]] else []) + Ties(xs[1..], c, le)
  }

  lemma {:induction false} InsertTies<T(!new)>(x: T, ys: seq<T>, c: T, le: (T, T) -> bool)
    requires TotalPreorder(le)
    ensures Ties(Insert(x, ys, le), c, le) == Ties([x], c, le) + Ties(ys, c, le)
    decreases |ys|
  {
    assert [x][1..] == [];
    if ys == [] || le(x, ys[0]) {
      assert ([x] + ys)[1..] == ys;
    } else {
      var r := Insert(x, ys, le);
      assert r[0] == ys[0] && r[1..] == Insert(x, ys[1..], le);
      InsertTies(x, ys[1..], c, le);
    }
  }

  lemma TiesCons<T>(x: T, ys: seq<T>, c: T, le: (T, T) -> bool)
    ensures Ties([x] + ys, c, le) == Ties([x], c, le) + Ties(ys, c, le)
  {
    assert ([x] + ys)[1..] == ys;
    assert [x][1..] == [];
  }

  /** Stability: elements that compare equal keep their relative order. */
  lemma {:induction false} SortStable<T(!new)>(xs: seq<T>, c: T, le: (T, T) -> bool)
    requires TotalPreorder(le)
    ensures Ties(Sort(xs, le), c, le) == Ties(xs, c, le)
    decreases |xs|
  {
    if xs != [] {
      var r := Sort(xs[1..], le);
      assert Sort(xs, le) == Insert(xs[0], r, le);
      SortStable(xs[1..], c, le);
      InsertTies(xs[0], r, c, le);
      assert xs == [xs[0]] + xs[1..];
      TiesCons(xs[0], xs[1..], c, le);
    }
  }

  /** With an order in which distinct elements never tie, a sorted permutation
      is the sort itself. */
  lemma {:induction false} SortUnique<T(!new)>(s: seq<T>, xs: seq<T>, le: (T, T) -> bool)
    requires TotalPreorder(le) && (forall a, b :: le(a, b) && le(b, a) ==> a == b)
    requires SortedBy(s, le) && multiset(s) == multiset(xs)
    ensures s == Sort(xs, le)
    decreases |xs|
  {
    SortSorted(xs, le);
    SortedPermutationsEqual(s, Sort(xs, le), le);
  }

  lemma {:induction false} SortedPermutationsEqual<T(!new)>(s: seq<T>, t: seq<T>, le: (T, T) -> bool)
    requires TotalPreorder(le) && (forall a, b :: le(a, b) && le(b, a) ==> a == b)
    requires SortedBy(s, le) && SortedBy(t, le) && multiset(s) == multiset(t)
    ensures s == t
    decreases |s|
  {
    assert |t| == |multiset(t)| == |s|;
    if s != [] {
      SortedHeads(s, t, le);
      SameTails(s, t);
      SortedTail(s, le);
      SortedTail(t, le);
      SortedPermutationsEqual(s[1..], t[1..], le);
      assert s == [s[0]] + s[1..] && t == [t[0]] + t[1..];
    }
  }

  lemma SortedHeads<T(!new)>(s: seq<T>, t: seq<T>, le: (T, T) -> bool)
    requires TotalPreorder(le) && forall a, b :: le(a, b) && le(b, a) ==> a == b
    requires SortedBy(s, le) && SortedBy(t, le) && multiset(s) == multiset(t) && s != []
    ensures t != [] && s[0] == t[0]
  {
    assert s[0] in multiset(t);
    assert t[0] in multiset(s);
    var i :| 0 <= i < |t| && t[i] == s[0];
    var j :| 0 <= j < |s| && s[j] == t[0];
    assert le(t[0], t[0]) && le(s[0], s[0]);
    assert le(t[0], t[i]) && le(s[0], s[j]);
  }

  lemma SameTails<T>(s: seq<T>, t: seq<T>)
    requires s != [] && t != [] && s[0] == t[0] && multiset(s) == multiset(t)
    ensures multiset(s[1..]) == multiset(t[1..])
  {
    assert s == [s[0]] + s[1..] && t == [t[0]] + t[1..];
    assert multiset(s[1..]) == multiset(s) - multiset{s[0]};
    assert multiset(t[1..]) == multiset(t) - multiset{t[0]};
  }

  lemma SortedTail<T>(s: seq<T>, le: (T, T) -> bool)
    requires SortedBy(s, le) && s != []
    ensures SortedBy(s[1..], le)
  {
  }

  /** Sorting a duplicate-free sequence leaves it duplicate-free. */
  lemma SortDistinct<T>(xs: seq<T>, le: (T, T) -> bool)
    requires Distinct(xs)
    ensures Distinct(Sort(xs, le))
  {
    DistinctCount(xs);
    DistinctCount(Sort(xs, le));
  }

  // ---------------------------------------------------------------------------
  // Slicing the sorted list: sorted(...)[:n]

  /** xs[:n] */
  function Take<T>(xs: seq<T>, n: nat): (r: seq<T>)
    ensures |r| == if |xs| < n then |xs| else n
    ensures r == xs[..|r|]
  {
    if |xs| <= n then xs else xs[..n]
  }

  /** The first n of the sort: as many as there are up to n, in order, each
      allowed before every element left out, and with the left-out ones making
      up the input. */
  lemma SortTake<T(!new)>(xs: seq<T>, le: (T, T) -> bool, n: nat)
    requires TotalPreorder(le)
    ensures var s := Sort(xs, le); var top := Take(s, n);
      && |top| == (if |xs| < n then |xs| else n)
      && SortedBy(top, le)
      && (forall i, j :: 0 <= i < |top| <= j < |s| ==> le(top[i], s[j]))
      && multiset(top) + multiset(s[|top|..]) == multiset(xs)
  {
    var s := Sort(xs, le);
    var top := Take(s, n);
    SortSorted(xs, le);
    assert s == top + s[|top|..];
  }

  lemma {:induction false} TiesTake<T>(s: seq<T>, k: nat, c: T, le: (T, T) -> bool)
    requires k <= |s|
    ensures Ties(s[..k], c, le) <= Ties(s, c, le)
    decreases k
  {
    if k > 0 {
      assert s[..k][0] == s[0] && s[..k][1..] == s[1..][..k - 1];
      TiesTake(s[1..], k - 1, c, le);
    }
  }

  /** Stability survives the slice: the tied elements kept are the first ones
      of the input's tied elements, in input order. */
  lemma SortTakeStable<T(!new)>(xs: seq<T>, le: (T, T) -> bool, n: nat, c: T)
    requires TotalPreorder(le)
    ensures Ties(Take(Sort(xs, le), n), c, le) <= Ties(xs, c, le)
  {
    var s := Sort(xs, le);
    TiesTake(s, |Take(s, n)|, c, le);
    SortStable(xs, c, le);
  }

  /** Every element kept by the slice is an element of the input. */
  lemma SortTakeFrom<T(!new)>(xs: seq<T>, le: (T, T) -> bool, n: nat)
    ensures forall p :: p in Take(Sort(xs, le), n) ==> p in xs
  {
    var s := Sort(xs, le);
    var top := Take(s, n);
    forall p | p in top ensures p in xs {
      assert s == top + s[|top|..];
      assert p in multiset(s);
    }
  }

  /** Every element kept by the slice may come before every input element it
      leaves out. */
  lemma SortTakeOmitted<T(!new)>(xs: seq<T>, le: (T, T) -> bool, n: nat)
    requires TotalPreorder(le)
    ensures forall p, q :: p in Take(Sort(xs, le), n) && q in xs && q !in Take(Sort(xs, le), n) ==> le(p, q)
  {
    var s := Sort(xs, le);
    var top := Take(s, n);
    SortTake(xs, le, n);
    forall p, q | p in top && q in xs && q !in top ensures le(p, q) {
      assert q in multiset(xs);
      assert q in multiset(s[|top|..]);
      var j :| 0 <= j < |s[|top|..]| && s[|top|..][j] == q;
      var i :| 0 <= i < |top| && top[i] == p;
      assert s[|top| + j] == q;
    }
  }

  /** `sorted(xs, ...)[:n]`: as many elements as the input has, up to n, in
      order; each an input element that may come before every input element
      left out; the tied ones the first of the input's tied ones, in input
      order. */
  lemma TopFacts<T(!new)>(xs: seq<T>, le: (T, T) -> bool, n: nat)
    requires TotalPreorder(le)
    ensures |Take(Sort(xs, le), n)| == if |xs| < n then |xs| else n
    ensures SortedBy(Take(Sort(xs, le), n), le)
    ensures forall p :: p in Take(Sort(xs, le), n) ==> p in xs
    ensures forall p, q :: p in Take(Sort(xs, le), n) && q in xs && q !in Take(Sort(xs, le), n) ==> le(p, q)
    ensures forall c :: Ties(Take(Sort(xs, le), n), c, le) <= Ties(xs, c, le)
  {
    SortTake(xs, le, n);
    SortTakeFrom(xs, le, n);
    SortTakeOmitted(xs, le, n);
    forall c ensures Ties(Take(Sort(xs, le), n), c, le) <= Ties(xs, c, le) {
      SortTakeStable(xs, le, n, c);
    }
  }

  /** The keys of the elements, in order. */
  function Image<T, K>(xs: seq<T>, key: T -> K): (r: seq<K>)
    ensures |r| == |xs| && forall i :: 0 <= i < |xs| ==> r[i] == key(xs[i])
  {
    seq(|xs|, i requires 0 <= i < |xs| => key(xs[i]))
  }

  /** A key that is neither x's nor any of ys's is not a key of the result of
      inserting x into ys. */
  lemma InsertKeyAbsent<T, K>(x: T, ys: seq<T>, le: (T, T) -> bool, key: T -> K, k0: K)
    requires key(x) != k0 && k0 !in Image(ys, key)
    ensures k0 !in Image(Insert(x, ys, le), key)
  {
    var t := Insert(x, ys, le);
    forall j | 0 <= j < |t| ensures key(t[j]) != k0 {
      assert t[j] in multiset(t);
      if t[j] != x {
        assert t[j] in multiset(ys);
        var k :| 0 <= k < |ys| && ys[k] == t[j];
        assert Image(ys, key)[k] == key(t[j]);
      }
    }
  }

  lemma {:induction false} InsertDistinctBy<T(!new), K(!new)>(x: T, ys: seq<T>, le: (T, T) -> bool, key: T -> K)
    requires Distinct(Image(ys, key)) && key(x) !in Image(ys, key)
    ensures Distinct(Image(Insert(x, ys, le), key))
    decreases |ys|
  {
    if ys == [] || le(x, ys[0]) {
      assert Image([x] + ys, key) == [key(x)] + Image(ys, key);
      DistinctCons(key(x), Image(ys, key));
    } else {
      assert Image(ys, key) == [key(ys[0])] + Image(ys[1..], key);
      DistinctCons(key(ys[0]), Image(ys[1..], key));
      InsertDistinctBy(x, ys[1..], le, key);
      var t := Insert(x, ys[1..], le);
      assert Image(Insert(x, ys, le), key) == [key(ys[0])] + Image(t, key);
      InsertKeyAbsent(x, ys[1..], le, key, key(ys[0]));
      DistinctCons(key(ys[0]), Image(t, key));
    }
  }

  lemma {:induction false} SortDistinctBy<T(!new), K(!new)>(xs: seq<T>, le: (T, T) -> bool, key: T -> K)
    requires Distinct(Image(xs, key))
    ensures Distinct(Image(Sort(xs, le), key))
    decreases |xs|
  {
    if xs != [] {
      assert Image(xs, key) == [key(xs[0])] + Image(xs[1..], key);
      DistinctCons(key(xs[0]), Image(xs[1..], key));
      SortDistinctBy(xs[1..], le, key);
      var t := Sort(xs[1..], le);
      forall j | 0 <= j < |t| ensures key(t[j]) != key(xs[0]) {
        assert t[j] in multiset(xs[1..]);
        var k :| 0 <= k < |xs[1..]| && xs[1..][k] == t[j];
        assert Image(xs[1..], key)[k] == key(t[j]);
      }
      InsertDistinctBy(xs[0], t, le, key);
    }
  }

  /** The slice of a sort of elements with distinct keys has distinct keys. */
  lemma SortTakeDistinctBy<T(!new), K(!new)>(xs: seq<T>, le: (T, T) -> bool, key: T -> K, n: nat)
    requires Distinct(Image(xs, key))
    ensures Distinct(Image(Take(Sort(xs, le), n), key))
  {
    var s := Sort(xs, le);
    SortDistinctBy(xs, le, key);
    assert Image(Take(s, n), key) == Image(s, key)[..|Take(s, n)|];
  }

  function First<K, V>(p: (K, V)): K {
    p.0
  }

  /** The slice of a sort of pairs with distinct keys has distinct keys. */
  lemma SortTakeKeysDistinct<K(!new), V(!new)>(xs: seq<(K, V)>, le: ((K, V), (K, V)) -> bool, n: nat)
    requires Distinct(KeysOf(xs))
    ensures Distinct(KeysOf(Take(Sort(xs, le), n)))
  {
    assert KeysOf(xs) == Image(xs, First);
    SortTakeDistinctBy(xs, le, First, n);
    assert KeysOf(Take(Sort(xs, le), n)) == Image(Take(Sort(xs, le), n), First);
  }

  // ---------------------------------------------------------------------------
  // Comparisons

  /** Python's `<=` on str: code point by code point, a proper prefix first. */
  predicate StrLe(a: string, b: string) {
    a == [] || (b != [] && (a[0] < b[0] || (a[0] == b[0] && StrLe(a[1..], b[1..]))))
  }

  lemma {:induction false} StrLeTotal(a: string, b: string)
    ensures StrLe(a, b) || StrLe(b, a)
  {
    if a != [] && b != [] && a[0] == b[0] {
      StrLeTotal(a[1..], b[1..]);
    }
  }

  lemma {:induction false} StrLeTrans(a: string, b: string, c: string)
    requires StrLe(a, b) && StrLe(b, c)
    ensures StrLe(a, c)
  {
    if a != [] && a[0] == b[0] && b[0] == c[0] {
      StrLeTrans(a[1..], b[1..], c[1..]);
    }
  }

  lemma {:induction false} StrLeAntisym(a: string, b: string)
    requires StrLe(a, b) && StrLe(b, a)
    ensures a == b
  {
    if a != [] {
      StrLeAntisym(a[1..], b[1..]);
      assert a == [a[0]] + a[1..] && b == [b[0]] + b[1..];
    }
  }

  /** `sorted` on a list of str compares with `<=` on str. */
  lemma StrLeTotalOrder()
    ensures TotalPreorder(StrLe)
    ensures forall a, b :: StrLe(a, b) && StrLe(b, a) ==> a == b
  {
    forall a, b ensures StrLe(a, b) || StrLe(b, a) {
      StrLeTotal(a, b);
    }
    forall a, b, c | StrLe(a, b) && StrLe(b, c) ensures StrLe(a, c) {
      StrLeTrans(a, b, c);
    }
    forall a, b | StrLe(a, b) && StrLe(b, a) ensures a == b {
      StrLeAntisym(a, b);
    }
  }

  predicate IntLe(a: int, b: int) {
    a <= b
  }

  lemma IntLeTotalOrder()
    ensures TotalPreorder(IntLe)
    ensures forall a, b :: IntLe(a, b) && IntLe(b, a) ==> a == b
  {
  }

  /** `sorted(keys)` for distinct int keys: a permutation of them, every key
      once, strictly ascending. */
  function SortedInts(keys: seq<int>): (r: seq<int>)
    requires Distinct(keys)
    ensures multiset(r) == multiset(keys) && |r| == |keys|
    ensures forall i, j :: 0 <= i < j < |r| ==> r[i] < r[j]
    ensures forall s :: s in r <==> s in keys
  {
    var r := Sort(keys, IntLe);
    IntLeTotalOrder();
    SortSorted(keys, IntLe);
    SortDistinct(keys, IntLe);
    assert forall s :: s in r <==> s in keys by {
      forall s ensures s in r <==> s in keys {
        assert s in r <==> s in multiset(r);
        assert s in keys <==> s in multiset(keys);
      }
    }
    r
  }
}
