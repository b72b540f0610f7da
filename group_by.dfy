/** The loop shape behind every flat count and sum in the scripts:

        for row in rows:
            <read the row's key k and amount v, or skip it>
            d[k] = d.get(k, 0) + v

    A projection f gives, for one row, Ok(Some((k, v))), Ok(None) when the loop
    skips the row, or the exception reading the row raises. The set-or-increment
    form `if k in d: d[k] += v else: d[k] = v` does the same thing. */
module GroupBy {
  import opened Builtins
  import opened Dicts

  type Projection<K> = Record -> Result<Option<(K, int)>>

  /** The dict d after the loop has consumed the pairs that r holds, or r's error. */
  function Finish<K(==,!new)>(d: Dict<K, int>, r: Result<seq<(K, int)>>): Result<Dict<K, int>>
    requires Valid(d)
  {
    match r
    case Err(e) => Err(e)
    case Ok(ps) => Ok(AccumulateFrom(d, ps))
  }

  /** What the loop returns. */
  function GroupSum<K(==,!new)>(rows: seq<Record>, f: Projection<K>): Result<Dict<K, int>> {
    Finish(Empty(), Collect(rows, f))
  }

  method GroupSumLoop<K(==,!new)>(rows: seq<Record>, f: Projection<K>) returns (r: Result<Dict<K, int>>)
    ensures r == GroupSum(rows, f)
    ensures r.Ok? ==> Valid(r.value)
  {
    var d: Dict<K, int> := Empty();
    var i := 0;
    while i < |rows|
      invariant 0 <= i <= |rows| && Valid(d)
      invariant GroupSum(rows, f) == Finish(d, Collect(rows[i..], f))
    {
      assert rows[i..][0] == rows[i] && rows[i..][1..] == rows[i + 1..];
      var step := f(rows[i]);
      if step.Err? {
        return Err(step.error);
      }
      if step.value.Some? {
        var p := step.value.value;
        if Collect(rows[i + 1..], f).Ok? {
          AccumulateFromCons(d, p, Collect(rows[i + 1..], f).value);
        }
        d := Add(d, p.0, p.1);
      }
      i := i + 1;
    }
    return Ok(d);
  }

  // ---------------------------------------------------------------------------
  // The same quantities read off the rows directly

  /** The amounts the rows give under key k, summed. */
  function RowSum<K(==)>(rows: seq<Record>, f: Projection<K>, k: K): int {
    if rows == [] then 0
    else (if f(rows[0]).Ok? && f(rows[0]).value.Some? && f(rows[0]).value.value.0 == k
          then f(rows[0]).value.value.1 else 0) + RowSum(rows[1..], f, k)
  }

  /** All the amounts the rows give, summed. */
  function RowTotal<K>(rows: seq<Record>, f: Projection<K>): int {
    if rows == [] then 0
    else (if f(rows[0]).Ok? && f(rows[0]).value.Some? then f(rows[0]).value.value.1 else 0) + RowTotal(rows[1..], f)
  }

  /** The keys of the rows the loop does not skip, in row order. */
  function RowKeys<K>(rows: seq<Record>, f: Projection<K>): seq<K> {
    if rows == [] then []
    else (if f(rows[0]).Ok? && f(rows[0]).value.Some? then [f(rows[0]).value.value.0] else []) + RowKeys(rows[1..], f)
  }

  lemma {:induction false} CollectSums<K(!new)>(rows: seq<Record>, f: Projection<K>, k: K)
    requires Collect(rows, f).Ok?
    ensures SumFor(Collect(rows, f).value, k) == RowSum(rows, f, k)
    ensures SumAll(Collect(rows, f).value) == RowTotal(rows, f)
    ensures KeysOf(Collect(rows, f).value) == RowKeys(rows, f)
  {
    if rows != [] {
      CollectSums(rows[1..], f, k);
      var ps := Collect(rows, f).value;
      if f(rows[0]).value.Some? {
        assert ps[1..] == Collect(rows[1..], f).value;
        KeysOfCons(ps);
      }
    }
  }

  /** The loop's dict, when it completes: the value under k is the sum of the
      amounts the rows give under k; a key is present exactly when some kept
      row gives it; the keys are in first-seen order; the values add up to the
      amounts of all kept rows. */
  lemma GroupSumAt<K(!new)>(rows: seq<Record>, f: Projection<K>, k: K)
    requires GroupSum(rows, f).Ok?
    ensures Valid(GroupSum(rows, f).value)
    ensures Get(GroupSum(rows, f).value, k, 0) == RowSum(rows, f, k)
    ensures k in GroupSum(rows, f).value.items <==> k in RowKeys(rows, f)
    ensures GroupSum(rows, f).value.keys == Dedup(RowKeys(rows, f))
    ensures Total(GroupSum(rows, f).value) == RowTotal(rows, f)
  {
    var ps := Collect(rows, f).value;
    CollectSums(rows, f, k);
    AccumulateAt(ps, k);
    AccumulateKeys(ps);
    AccumulateTotal(ps);
  }

  /** The loop raises exactly when some row raises, and then the first such row's exception. */
  lemma GroupSumErr<K(!new)>(rows: seq<Record>, f: Projection<K>)
    ensures GroupSum(rows, f).Err? <==> exists i :: 0 <= i < |rows| && f(rows[i]).Err?
    ensures GroupSum(rows, f).Err? ==>
      exists i :: 0 <= i < |rows| && f(rows[i]) == Err(GroupSum(rows, f).error) && forall j :: 0 <= j < i ==> f(rows[j]).Ok?
  {
    CollectErr(rows, f);
  }

  /** A row the loop skips changes nothing. */
  lemma GroupSumSkip<K(!new)>(a: seq<Record>, row: Record, b: seq<Record>, f: Projection<K>)
    requires f(row) == Ok(None)
    ensures GroupSum(a + [row] + b, f) == GroupSum(a + b, f)
  {
    CollectSkip(a, row, b, f);
  }

  // ---------------------------------------------------------------------------
  // Counting: `d[k] = d.get(k, 0) + 1` for the key h reads off each kept row.

  /** The counting projection over a key reader h: amount 1 for every kept row. */
  function CountBy<K>(h: Record -> Result<Option<K>>): Projection<K> {
    row => match h(row)
      case Err(e) => Err(e)
      case Ok(None) => Ok(None)
      case Ok(Some(k)) => Ok(Some((k, 1)))
  }

  /** How many rows h maps to key k. */
  function Hits<K(==)>(rows: seq<Record>, h: Record -> Result<Option<K>>, k: K): nat {
    if rows == [] then 0
    else (if h(rows[0]) == Ok(Some(k)) then 1 else 0) + Hits(rows[1..], h, k)
  }

  /** Some row gives k exactly when k is hit at least once. */
  lemma {:induction false} HitsExist<K(!new)>(rows: seq<Record>, h: Record -> Result<Option<K>>, k: K)
    ensures Hits(rows, h, k) >= 1 <==> exists i :: 0 <= i < |rows| && h(rows[i]) == Ok(Some(k))
  {
    if rows != [] {
      HitsExist(rows[1..], h, k);
      if Hits(rows[1..], h, k) >= 1 {
        var i :| 0 <= i < |rows[1..]| && h(rows[1..][i]) == Ok(Some(k));
        assert h(rows[i + 1]) == Ok(Some(k));
      }
      if exists i :: 0 <= i < |rows| && h(rows[i]) == Ok(Some(k)) {
        var i :| 0 <= i < |rows| && h(rows[i]) == Ok(Some(k));
        if i > 0 {
          assert h(rows[1..][i - 1]) == Ok(Some(k));
        }
      }
    }
  }

  /** How many rows h keeps. */
  function Kept<K>(rows: seq<Record>, h: Record -> Result<Option<K>>): nat {
    if rows == [] then 0
    else (if h(rows[0]).Ok? && h(rows[0]).value.Some? then 1 else 0) + Kept(rows[1..], h)
  }

  lemma {:induction false} CollectCountBy<K(!new)>(rows: seq<Record>, h: Record -> Result<Option<K>>)
    ensures Collect(rows, CountBy(h)) ==
      match Collect(rows, h)
      case Err(e) => Err(e)
      case Ok(ks) => Ok(Units(ks))
  {
    if rows == [] {
      assert Units<K>([]) == [];
    } else {
      CollectCountBy(rows[1..], h);
      if h(rows[0]).Ok? && h(rows[0]).value.Some? && Collect(rows[1..], h).Ok? {
        var k, ks := h(rows[0]).value.value, Collect(rows[1..], h).value;
        assert Units([k] + ks) == [(k, 1)] + Units(ks);
      }
    }
  }

  lemma {:induction false} CountHits<K(!new)>(rows: seq<Record>, h: Record -> Result<Option<K>>, k: K)
    requires Collect(rows, h).Ok?
    ensures multiset(Collect(rows, h).value)[k] == Hits(rows, h, k)
    ensures |Collect(rows, h).value| == Kept(rows, h)
  {
    if rows != [] {
      CountHits(rows[1..], h, k);
    }
  }

  /** A counting loop is the count of the keys the rows give: it raises exactly
      when reading the keys raises, and otherwise holds, under each key, how
      many rows give it. */
  lemma GroupCount<K(!new)>(rows: seq<Record>, h: Record -> Result<Option<K>>)
    ensures GroupSum(rows, CountBy(h)) ==
      match Collect(rows, h)
      case Err(e) => Err(e)
      case Ok(ks) => Ok(Accumulate(Units(ks)))
  {
    CollectCountBy(rows, h);
  }

  /** A counting loop's dict, when it completes: the count under k is the number
      of rows giving k, a key is present exactly when some row gives it, every
      stored count is at least 1, the counts add up to the number of kept rows,
      and the keys are in first-seen order. */
  lemma GroupCountAt<K(!new)>(rows: seq<Record>, h: Record -> Result<Option<K>>, k: K)
    requires GroupSum(rows, CountBy(h)).Ok?
    ensures Collect(rows, h).Ok? && Valid(GroupSum(rows, CountBy(h)).value)
    ensures Get(GroupSum(rows, CountBy(h)).value, k, 0) == Hits(rows, h, k)
    ensures k in GroupSum(rows, CountBy(h)).value.items <==> Hits(rows, h, k) >= 1
    ensures k in GroupSum(rows, CountBy(h)).value.items ==> GroupSum(rows, CountBy(h)).value.items[k] >= 1
    ensures Total(GroupSum(rows, CountBy(h)).value) == Kept(rows, h)
    ensures GroupSum(rows, CountBy(h)).value.keys == Dedup(Collect(rows, h).value)
  {
    GroupCount(rows, h);
    var ks := Collect(rows, h).value;
    CountAt(ks, k);
    CountHits(rows, h, k);
    UnitsSums(ks, k);
    AccumulateKeys(Units(ks));
  }
}
