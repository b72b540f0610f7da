/** The ten highest run scorers of one team. Every delivery with batting_team
    exactly "Royal Challengers Bangalore" adds its batsman_runs, read as an
    integer, to its batsman. Two rankings follow. One is a stable sort on the
    runs alone, descending, so batsmen with equal runs stay in first-seen
    order. The other sorts (runs, batsman) tuples descending, so batsmen with
    equal runs come in descending name order. */
module TopBatsmen {
  import opened Builtins
  import opened Dicts
  import opened Sorting
  import opened GroupBy

  const TargetTeam := "Royal Challengers Bangalore"

  /** One delivery row: batting_team first (a delivery of another team is
      skipped), then batsman and int(batsman_runs). */
  function BatsmanRunOf(row: Record): Result<Option<(string, int)>> {
    var team :- Field(row, "batting_team");
    if team != TargetTeam then Ok(None)
    else
      var batsman :- Field(row, "batsman");
      var text :- Field(row, "batsman_runs");
      var runs :- ParseInt(text);
      Ok(Some((batsman, runs)))
  }

  /** A delivery row the loops raise on. */
  predicate BadDelivery(row: Record) {
    || "batting_team" !in row
    || (row["batting_team"] == TargetTeam && ("batsman" !in row || "batsman_runs" !in row || ParseInt(row["batsman_runs"]).Err?))
  }

  /** A completed loading loop holds a (batsman, runs) pair exactly when some
      delivery of the team has that batsman and those runs. */
  lemma LoadedPairs(rows: seq<Record>)
    requires Collect(rows, BatsmanRunOf).Ok?
    ensures forall b, n :: (b, n) in Collect(rows, BatsmanRunOf).value <==>
      exists i :: 0 <= i < |rows| && Field(rows[i], "batting_team") == Ok(TargetTeam)
        && Field(rows[i], "batsman") == Ok(b) && "batsman_runs" in rows[i] && ParseInt(rows[i]["batsman_runs"]) == Ok(n)
  {
    forall b, n ensures (b, n) in Collect(rows, BatsmanRunOf).value <==>
      exists i :: 0 <= i < |rows| && Field(rows[i], "batting_team") == Ok(TargetTeam)
        && Field(rows[i], "batsman") == Ok(b) && "batsman_runs" in rows[i] && ParseInt(rows[i]["batsman_runs"]) == Ok(n)
    {
      CollectMember(rows, BatsmanRunOf, (b, n));
    }
  }

  /** A completed loading loop holds each pair once for every delivery giving
      it, so a later sum sees each of them. */
  lemma LoadedPairCounts(rows: seq<Record>)
    requires Collect(rows, BatsmanRunOf).Ok?
    ensures forall p :: multiset(Collect(rows, BatsmanRunOf).value)[p] == Hits(rows, BatsmanRunOf, p)
    ensures |Collect(rows, BatsmanRunOf).value| == Kept(rows, BatsmanRunOf)
  {
    forall p ensures multiset(Collect(rows, BatsmanRunOf).value)[p] == Hits(rows, BatsmanRunOf, p) {
      CountHits(rows, BatsmanRunOf, p);
    }
    CountHits(rows, BatsmanRunOf, ("", 0));
  }

  /** The loading loop keeping `{BATSMAN: ..., RUNS: int(...)}` for the team's
      deliveries: every delivery of the team gives one (batsman, runs) pair,
      and no other pair is kept; the loop raises exactly when some row lacks
      batting_team, or is the team's and lacks batsman or batsman_runs or has
      runs that are not an integer. */
  method LoadDeliveries(rows: seq<Record>) returns (r: Result<seq<(string, int)>>)
    ensures r == Collect(rows, BatsmanRunOf)
    ensures r.Err? <==> exists i :: 0 <= i < |rows| && BadDelivery(rows[i])
    ensures r.Ok? ==> forall b, n :: (b, n) in r.value <==>
      exists i :: 0 <= i < |rows| && Field(rows[i], "batting_team") == Ok(TargetTeam)
        && Field(rows[i], "batsman") == Ok(b) && "batsman_runs" in rows[i] && ParseInt(rows[i]["batsman_runs"]) == Ok(n)
    ensures r.Ok? ==> forall p :: multiset(r.value)[p] == Hits(rows, BatsmanRunOf, p)
    ensures r.Ok? ==> |r.value| == Kept(rows, BatsmanRunOf)
  {
    r := CollectLoop(rows, BatsmanRunOf);
    CollectErr(rows, BatsmanRunOf);
    if r.Ok? {
      LoadedPairs(rows);
      LoadedPairCounts(rows);
    }
  }

  // ---------------------------------------------------------------------------
  // The stable ranking: sorted(items, key=lambda x: x[1], reverse=True)[:10]

  predicate RunsGe(a: (string, int), b: (string, int)) {
    a.1 >= b.1
  }

  function Ranking(totals: Dict<string, int>): seq<(string, int)>
    requires Valid(totals)
  {
    Take(Sort(Items(totals), RunsGe), 10)
  }

  /** `dict(sorted_batsmen[:10])` */
  function TopTen(totals: Dict<string, int>): Dict<string, int>
    requires Valid(totals)
  {
    FromPairs(Ranking(totals))
  }

  /** The stable ranking itself: up to ten (batsman, total) pairs of the
      totals, distinct batsmen, in descending runs, none below a batsman left
      out, and batsmen with equal runs in first-seen order. */
  lemma RankingFacts(totals: Dict<string, int>)
    requires Valid(totals)
    ensures |Ranking(totals)| == if |totals.keys| < 10 then |totals.keys| else 10
    ensures Distinct(KeysOf(Ranking(totals)))
    ensures forall i :: 0 <= i < |Ranking(totals)| ==>
      Ranking(totals)[i].0 in totals.items && Ranking(totals)[i].1 == totals.items[Ranking(totals)[i].0]
    ensures forall i, j :: 0 <= i < j < |Ranking(totals)| ==> Ranking(totals)[i].1 >= Ranking(totals)[j].1
    ensures forall i, c :: 0 <= i < |Ranking(totals)| && c in totals.items && c !in KeysOf(Ranking(totals)) ==>
      Ranking(totals)[i].1 >= totals.items[c]
    ensures forall c :: Ties(Ranking(totals), c, RunsGe) <= Ties(Items(totals), c, RunsGe)
  {
    var items := Items(totals);
    var ranking := Ranking(totals);
    assert TotalPreorder(RunsGe);
    TopFacts(items, RunsGe, 10);
    assert KeysOf(items) == totals.keys;
    SortTakeKeysDistinct(items, RunsGe, 10);
    forall i | 0 <= i < |ranking| ensures ranking[i].0 in totals.items && ranking[i].1 == totals.items[ranking[i].0] {
      assert ranking[i] in items;
    }
    forall i, c | 0 <= i < |ranking| && c in totals.items && c !in KeysOf(ranking) ensures ranking[i].1 >= totals.items[c] {
      RankingOmitted(totals, i, c);
    }
  }

  lemma RankingOmitted(totals: Dict<string, int>, i: int, c: string)
    requires Valid(totals) && 0 <= i < |Ranking(totals)| && c in totals.items && c !in KeysOf(Ranking(totals))
    ensures Ranking(totals)[i].1 >= totals.items[c]
  {
    var items := Items(totals);
    var ranking := Ranking(totals);
    assert TotalPreorder(RunsGe);
    SortTakeOmitted(items, RunsGe, 10);
    var j :| 0 <= j < |totals.keys| && totals.keys[j] == c;
    assert items[j] == (c, totals.items[c]);
    forall k | 0 <= k < |ranking| ensures ranking[k] != items[j] {
      assert KeysOf(ranking)[k] == ranking[k].0;
    }
    assert ranking == Take(Sort(items, RunsGe), 10);
    assert ranking[i] in ranking && items[j] in items && items[j] !in ranking;
    assert RunsGe(ranking[i], items[j]);
  }

  /** The stable top ten: as many batsmen as there are, up to ten, in ranking
      order, each with their own total. */
  lemma TopTenFacts(totals: Dict<string, int>)
    requires Valid(totals)
    ensures TopTen(totals).keys == KeysOf(Ranking(totals))
    ensures |TopTen(totals).keys| == if |totals.keys| < 10 then |totals.keys| else 10
    ensures forall b :: b in TopTen(totals).items ==> b in totals.items && TopTen(totals).items[b] == totals.items[b]
  {
    RankingFacts(totals);
    FromPairsWithin(Ranking(totals), totals);
  }

  /** The stable top ten is in descending runs. */
  lemma TopTenOrder(totals: Dict<string, int>)
    requires Valid(totals)
    ensures forall i, j :: 0 <= i < j < |TopTen(totals).keys| ==>
      TopTen(totals).items[TopTen(totals).keys[i]] >= TopTen(totals).items[TopTen(totals).keys[j]]
  {
    var ranking := Ranking(totals);
    var top := TopTen(totals);
    RankingFacts(totals);
    FromPairsDistinct(ranking);
    forall i, j | 0 <= i < j < |top.keys| ensures top.items[top.keys[i]] >= top.items[top.keys[j]] {
      assert top.keys[i] == ranking[i].0 && top.keys[j] == ranking[j].0;
    }
  }

  /** No batsman in the stable top ten has fewer runs than a batsman left out. */
  lemma TopTenOmitted(totals: Dict<string, int>, b: string, c: string)
    requires Valid(totals)
    requires b in TopTen(totals).items && c in totals.items && c !in TopTen(totals).items
    ensures TopTen(totals).items[b] >= totals.items[c]
  {
    var ranking := Ranking(totals);
    TopTenFacts(totals);
    var i :| 0 <= i < |ranking| && KeysOf(ranking)[i] == b;
    RankingFacts(totals);
    RankingOmitted(totals, i, c);
  }

  /** calculate_top_10_batsmen over the loaded deliveries. */
  method CalculateTop10Batsmen(deliveries: seq<(string, int)>) returns (top: Dict<string, int>)
    ensures top == TopTen(Accumulate(deliveries))
    ensures forall b :: b in top.items ==> top.items[b] == SumFor(deliveries, b)
    ensures forall b, c :: b in top.items && c in KeysOf(deliveries) && c !in top.items ==>
      top.items[b] >= SumFor(deliveries, c)
  {
    var totals := AccumulateLoop(deliveries);
    top := FromPairs(Take(Sort(Items(totals), RunsGe), 10));
    assert top == TopTen(totals);
    TopTenFacts(totals);
    forall b, c | b in top.items && c in KeysOf(deliveries) && c !in top.items
      ensures top.items[b] >= SumFor(deliveries, c)
    {
      AccumulateAt(deliveries, c);
      TopTenOmitted(totals, b, c);
      AccumulateAt(deliveries, b);
    }
    forall b ensures Get(totals, b, 0) == SumFor(deliveries, b) && (b in totals.items <==> b in KeysOf(deliveries)) {
      AccumulateAt(deliveries, b);
    }
  }

  /** calculate_top_10_batsmen over the row dicts: summing in one pass, then
      the same stable ranking. */
  method CalculateTop10BatsmenOfRows(rows: seq<Record>) returns (r: Result<Dict<string, int>>)
    ensures GroupSum(rows, BatsmanRunOf).Ok? ==> r == Ok(TopTen(GroupSum(rows, BatsmanRunOf).value))
    ensures GroupSum(rows, BatsmanRunOf).Err? ==> r == Err(GroupSum(rows, BatsmanRunOf).error)
    ensures r.Ok? ==> forall b :: b in r.value.items ==> r.value.items[b] == RowSum(rows, BatsmanRunOf, b)
  {
    var totals :- GroupSumLoop(rows, BatsmanRunOf);
    TopTenFacts(totals);
    forall b ensures Get(totals, b, 0) == RowSum(rows, BatsmanRunOf, b) {
      GroupSumAt(rows, BatsmanRunOf, b);
    }
    r := Ok(FromPairs(Take(Sort(Items(totals), RunsGe), 10)));
  }

  // ---------------------------------------------------------------------------
  // The tuple ranking: sorted([(runs, batsman), ...], reverse=True)[:10]

  /** `a >= b` on (runs, batsman) tuples: runs first, then the name. */
  predicate TupleGe(a: (int, string), b: (int, string)) {
    a.0 > b.0 || (a.0 == b.0 && StrLe(b.1, a.1))
  }

  lemma TupleGeTotalOrder()
    ensures TotalPreorder(TupleGe)
    ensures forall a, b :: TupleGe(a, b) && TupleGe(b, a) ==> a == b
  {
    StrLeTotalOrder();
  }

  function Name(t: (int, string)): string {
    t.1
  }

  /** Each pair turned round: `[(run, batsman) for batsman, run in d.items()]`
      one way, `(batsman, runs)` for each `(runs, batsman)` the other. */
  function Flip<A, B>(ps: seq<(A, B)>): (r: seq<(B, A)>)
    ensures |r| == |ps| && forall i :: 0 <= i < |ps| ==> r[i] == (ps[i].1, ps[i].0)
  {
    seq(|ps|, i requires 0 <= i < |ps| => (ps[i].1, ps[i].0))
  }

  function TupleRanking(totals: Dict<string, int>): seq<(int, string)>
    requires Valid(totals)
  {
    Take(Sort(Flip(Items(totals)), TupleGe), 10)
  }

  function TupleTopTen(totals: Dict<string, int>): Dict<string, int>
    requires Valid(totals)
  {
    FromPairs(Flip(TupleRanking(totals)))
  }

  /** The loop building the (runs, batsman) list from the totals. */
  method SwapLoop(totals: Dict<string, int>) returns (items: seq<(int, string)>)
    requires Valid(totals)
    ensures items == Flip(Items(totals))
  {
    var ps := Items(totals);
    items := [];
    var i := 0;
    while i < |ps|
      invariant 0 <= i <= |ps|
      invariant items == Flip(ps[..i])
    {
      assert ps[..i + 1] == ps[..i] + [ps[i]];
      items := items + [(ps[i].1, ps[i].0)];
      i := i + 1;
    }
    assert ps[..i] == ps;
  }

  /** The tuple ranking is fixed by the totals alone: any order of the same
      (runs, batsman) tuples sorts the same way. */
  lemma TupleRankingOrderFree(xs: seq<(int, string)>, ys: seq<(int, string)>)
    requires multiset(xs) == multiset(ys)
    ensures Sort(xs, TupleGe) == Sort(ys, TupleGe)
  {
    TupleGeTotalOrder();
    SortSorted(ys, TupleGe);
    SortUnique(Sort(ys, TupleGe), xs, TupleGe);
  }

  /** The tuple ranking itself: up to ten (total, batsman) tuples of the
      totals, distinct batsmen, in descending tuple order, none below a batsman
      left out. */
  lemma TupleRankingFacts(totals: Dict<string, int>)
    requires Valid(totals)
    ensures |TupleRanking(totals)| == if |totals.keys| < 10 then |totals.keys| else 10
    ensures Distinct(Image(TupleRanking(totals), Name))
    ensures forall i :: 0 <= i < |TupleRanking(totals)| ==>
      TupleRanking(totals)[i].1 in totals.items && TupleRanking(totals)[i].0 == totals.items[TupleRanking(totals)[i].1]
    ensures SortedBy(TupleRanking(totals), TupleGe)
    ensures forall i, c :: 0 <= i < |TupleRanking(totals)| && c in totals.items && c !in Image(TupleRanking(totals), Name) ==>
      TupleRanking(totals)[i].0 >= totals.items[c]
  {
    var items := Flip(Items(totals));
    var ranking := TupleRanking(totals);
    TupleGeTotalOrder();
    SortTake(items, TupleGe, 10);
    SortTakeFrom(items, TupleGe, 10);
    assert Image(items, Name) == totals.keys;
    SortTakeDistinctBy(items, TupleGe, Name, 10);
    forall i | 0 <= i < |ranking| ensures ranking[i].1 in totals.items && ranking[i].0 == totals.items[ranking[i].1] {
      assert ranking[i] in items;
    }
    forall i, c | 0 <= i < |ranking| && c in totals.items && c !in Image(ranking, Name) ensures ranking[i].0 >= totals.items[c] {
      TupleRankingOmitted(totals, i, c);
    }
  }

  lemma TupleRankingOmitted(totals: Dict<string, int>, i: int, c: string)
    requires Valid(totals) && 0 <= i < |TupleRanking(totals)| && c in totals.items && c !in Image(TupleRanking(totals), Name)
    ensures TupleRanking(totals)[i].0 >= totals.items[c]
  {
    var items := Flip(Items(totals));
    var ranking := TupleRanking(totals);
    TupleGeTotalOrder();
    SortTakeOmitted(items, TupleGe, 10);
    var j :| 0 <= j < |totals.keys| && totals.keys[j] == c;
    assert items[j] == (totals.items[c], c);
    forall k | 0 <= k < |ranking| ensures ranking[k] != items[j] {
      assert Image(ranking, Name)[k] == ranking[k].1;
    }
    assert ranking == Take(Sort(items, TupleGe), 10);
    assert ranking[i] in ranking && items[j] in items && items[j] !in ranking;
    assert TupleGe(ranking[i], items[j]);
  }

  /** The tuple top ten: as many batsmen as there are, up to ten, each with
      their own total. */
  lemma TupleTopTenFacts(totals: Dict<string, int>)
    requires Valid(totals)
    ensures TupleTopTen(totals).keys == Image(TupleRanking(totals), Name)
    ensures |TupleTopTen(totals).keys| == if |totals.keys| < 10 then |totals.keys| else 10
    ensures forall b :: b in TupleTopTen(totals).items ==> b in totals.items && TupleTopTen(totals).items[b] == totals.items[b]
  {
    var ranking := TupleRanking(totals);
    var pairs := Flip(ranking);
    TupleRankingFacts(totals);
    assert KeysOf(pairs) == Image(ranking, Name);
    FromPairsWithin(pairs, totals);
  }

  /** No batsman in the tuple top ten has fewer runs than a batsman left out. */
  lemma TupleTopTenOmitted(totals: Dict<string, int>, b: string, c: string)
    requires Valid(totals)
    requires b in TupleTopTen(totals).items && c in totals.items && c !in TupleTopTen(totals).items
    ensures TupleTopTen(totals).items[b] >= totals.items[c]
  {
    var ranking := TupleRanking(totals);
    TupleTopTenFacts(totals);
    var i :| 0 <= i < |ranking| && Image(ranking, Name)[i] == b;
    TupleRankingFacts(totals);
    TupleRankingOmitted(totals, i, c);
  }

  /** The tuple top ten is in descending runs and, among equal runs, in
      descending name order. */
  lemma TupleTopTenOrder(totals: Dict<string, int>, i: int, j: int)
    requires Valid(totals) && 0 <= i < j < |TupleTopTen(totals).keys|
    ensures var top := TupleTopTen(totals);
      || top.items[top.keys[i]] > top.items[top.keys[j]]
      || (top.items[top.keys[i]] == top.items[top.keys[j]] && StrLe(top.keys[j], top.keys[i]))
  {
    var ranking := TupleRanking(totals);
    var top := TupleTopTen(totals);
    TupleTopTenFacts(totals);
    TupleRankingFacts(totals);
    assert top.keys[i] == ranking[i].1 && top.keys[j] == ranking[j].1;
    assert TupleGe(ranking[i], ranking[j]);
  }

  /** top_10: the set-or-increment totals, the tuple list, its descending sort
      and slice, and the dict filled from the slice. */
  method Top10(rows: seq<Record>) returns (r: Result<Dict<string, int>>)
    ensures GroupSum(rows, BatsmanRunOf).Ok? ==> r == Ok(TupleTopTen(GroupSum(rows, BatsmanRunOf).value))
    ensures GroupSum(rows, BatsmanRunOf).Err? ==> r == Err(GroupSum(rows, BatsmanRunOf).error)
    ensures r.Ok? ==> forall b :: b in r.value.items ==> r.value.items[b] == RowSum(rows, BatsmanRunOf, b)
  {
    var totals :- GroupSumLoop(rows, BatsmanRunOf);
    var items := SwapLoop(totals);
    var top10 := Take(Sort(items, TupleGe), 10);
    var d := PutAllLoop(Flip(top10));
    TupleTopTenFacts(totals);
    forall b ensures Get(totals, b, 0) == RowSum(rows, BatsmanRunOf, b) {
      GroupSumAt(rows, BatsmanRunOf, b);
    }
    r := Ok(d);
  }
}
