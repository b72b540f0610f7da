/** The most economical bowlers of one season. Every delivery of a match of
    the season adds its total_runs to its bowler's runs and, when it is
    neither a no-ball nor a wide, one to the bowler's legal balls. Bowlers with
    enough legal balls get an economy, runs per six legal balls, and the ten
    lowest economies are returned in ascending order. */
module Economy {
  import opened Builtins
  import opened Dicts
  import opened Sorting
  import opened MatchIds

  /** A bowler's `{'runs': ..., 'balls': ...}`. */
  datatype Stats = Stats(runs: int, balls: int)

  /** What one selected delivery contributes. */
  datatype Ball = Ball(bowler: string, runs: int, legal: bool)

  /** One delivery row: match_id first (a delivery of a match outside the
      season is skipped), then bowler, int(total_runs), int(noball_runs) and
      int(wide_runs); the ball is legal when both of the last two are 0. */
  function BallOf(counted: string -> bool, row: Record): Result<Option<Ball>> {
    var id :- Field(row, "match_id");
    if !counted(id) then Ok(None)
    else
      var bowler :- Field(row, "bowler");
      var runsText :- Field(row, "total_runs");
      var runs :- ParseInt(runsText);
      var noballText :- Field(row, "noball_runs");
      var noball :- ParseInt(noballText);
      var wideText :- Field(row, "wide_runs");
      var wide :- ParseInt(wideText);
      Ok(Some(Ball(bowler, runs, noball == 0 && wide == 0)))
  }

  function Balls(counted: string -> bool): Record -> Result<Option<Ball>> {
    row => BallOf(counted, row)
  }

  // ---------------------------------------------------------------------------
  // The per-bowler tally

  /** One ball credited to its bowler, who starts from zero runs and balls. */
  function Credit(d: Dict<string, Stats>, b: Ball): (r: Dict<string, Stats>)
    requires Valid(d)
    ensures Valid(r)
  {
    var s := Get(d, b.bowler, Stats(0, 0));
    Put(d, b.bowler, Stats(s.runs + b.runs, s.balls + if b.legal then 1 else 0))
  }

  function TallyFrom(d: Dict<string, Stats>, bs: seq<Ball>): (r: Dict<string, Stats>)
    requires Valid(d)
    ensures Valid(r)
    decreases |bs|
  {
    if bs == [] then d else TallyFrom(Credit(d, bs[0]), bs[1..])
  }

  function TallyFinish(d: Dict<string, Stats>, r: Result<seq<Ball>>): Result<Dict<string, Stats>>
    requires Valid(d)
  {
    match r
    case Err(e) => Err(e)
    case Ok(bs) => Ok(TallyFrom(d, bs))
  }

  /** The `bowler_stats` the delivery loop leaves, or the exception it raises. */
  function BowlerStats(deliveries: seq<Record>, counted: string -> bool): Result<Dict<string, Stats>> {
    TallyFinish(Empty(), Collect(deliveries, Balls(counted)))
  }

  /** The delivery loop, which creates a bowler's entry at zero on first sight
      and then adds the delivery's runs and legal ball to it. */
  method TallyBowlers(deliveries: seq<Record>, counted: string -> bool) returns (r: Result<Dict<string, Stats>>)
    ensures r == BowlerStats(deliveries, counted)
    ensures r.Ok? ==> Valid(r.value)
  {
    var d: Dict<string, Stats> := Empty();
    var i := 0;
    while i < |deliveries|
      invariant 0 <= i <= |deliveries| && Valid(d)
      invariant BowlerStats(deliveries, counted) == TallyFinish(d, Collect(deliveries[i..], Balls(counted)))
    {
      assert deliveries[i..][0] == deliveries[i] && deliveries[i..][1..] == deliveries[i + 1..];
      TallyStep(d, deliveries[i..], counted);
      var step := BallOf(counted, deliveries[i]);
      if step.Err? {
        return Err(step.error);
      }
      if step.value.Some? {
        var b := step.value.value;
        d := AddBall(d, b);
      }
      i := i + 1;
    }
    return Ok(d);
  }

  lemma TallyStep(d: Dict<string, Stats>, rows: seq<Record>, counted: string -> bool)
    requires Valid(d) && rows != []
    ensures TallyFinish(d, Collect(rows, Balls(counted))) ==
      match BallOf(counted, rows[0])
      case Err(e) => Err(e)
      case Ok(None) => TallyFinish(d, Collect(rows[1..], Balls(counted)))
      case Ok(Some(b)) => TallyFinish(Credit(d, b), Collect(rows[1..], Balls(counted)))
  {
    assert Balls(counted)(rows[0]) == BallOf(counted, rows[0]);
  }

  /** `if bowler not in bowler_stats: bowler_stats[bowler] = {'runs': 0, 'balls': 0}`
      followed by the two `+=`: one credit. */
  method AddBall(d: Dict<string, Stats>, b: Ball) returns (r: Dict<string, Stats>)
    requires Valid(d)
    ensures r == Credit(d, b)
  {
    r := d;
    if b.bowler !in r.items {
      r := Put(r, b.bowler, Stats(0, 0));
    }
    var s := r.items[b.bowler];
    r := Put(r, b.bowler, Stats(s.runs + b.runs, s.balls + if b.legal then 1 else 0));
  }

  /** (bowler, runs) for each ball. */
  function RunPairs(bs: seq<Ball>): seq<(string, int)> {
    seq(|bs|, i requires 0 <= i < |bs| => (bs[i].bowler, bs[i].runs))
  }

  /** (bowler, 1 or 0) for each ball, 1 when it is legal. */
  function LegalPairs(bs: seq<Ball>): seq<(string, int)> {
    seq(|bs|, i requires 0 <= i < |bs| => (bs[i].bowler, if bs[i].legal then 1 else 0))
  }

  /** The tally d splits into a runs dict and a legal-balls dict over the same keys. */
  ghost predicate Splits(d: Dict<string, Stats>, runs: Dict<string, int>, legal: Dict<string, int>) {
    && Valid(d) && Valid(runs) && Valid(legal)
    && d.keys == runs.keys == legal.keys
    && forall k :: k in d.items ==> d.items[k] == Stats(runs.items[k], legal.items[k])
  }

  /** One credit keeps the split: the runs and legal-ball dicts each take
      their own `+=`. */
  lemma CreditSplits(d: Dict<string, Stats>, runs: Dict<string, int>, legal: Dict<string, int>, b: Ball)
    requires Splits(d, runs, legal)
    ensures Splits(Credit(d, b), Add(runs, b.bowler, b.runs), Add(legal, b.bowler, if b.legal then 1 else 0))
  {
    var r := Add(runs, b.bowler, b.runs);
    var l := Add(legal, b.bowler, if b.legal then 1 else 0);
    var c := Credit(d, b);
    if b.bowler in d.items {
      assert c.keys == d.keys && r.keys == runs.keys && l.keys == legal.keys;
    } else {
      assert c.keys == d.keys + [b.bowler] && r.keys == runs.keys + [b.bowler] && l.keys == legal.keys + [b.bowler];
    }
    forall k | k in c.items
      ensures c.items[k] == Stats(r.items[k], l.items[k])
    {
      if k != b.bowler {
        assert c.items[k] == d.items[k];
      }
    }
  }

  lemma {:induction false} TallySplits(d: Dict<string, Stats>, runs: Dict<string, int>, legal: Dict<string, int>, bs: seq<Ball>)
    requires Splits(d, runs, legal)
    ensures Splits(TallyFrom(d, bs), AccumulateFrom(runs, RunPairs(bs)), AccumulateFrom(legal, LegalPairs(bs)))
    decreases |bs|
  {
    if bs != [] {
      assert RunPairs(bs)[1..] == RunPairs(bs[1..]) && LegalPairs(bs)[1..] == LegalPairs(bs[1..]);
      var b := bs[0];
      CreditSplits(d, runs, legal, b);
      TallySplits(Credit(d, b), Add(runs, b.bowler, b.runs), Add(legal, b.bowler, if b.legal then 1 else 0), bs[1..]);
    }
  }

  /** The stats the tally keeps: a bowler has an entry exactly when one of the
      balls is theirs, the entries are in first-seen order, the runs are the sum
      of the runs of all their balls and the balls the number of their legal
      ones. */
  lemma TallyAt(bs: seq<Ball>, k: string)
    ensures TallyFrom(Empty(), bs).keys == Dedup(KeysOf(RunPairs(bs)))
    ensures k in TallyFrom(Empty(), bs).items <==> exists i :: 0 <= i < |bs| && bs[i].bowler == k
    ensures k in TallyFrom(Empty(), bs).items ==>
      TallyFrom(Empty(), bs).items[k] == Stats(SumFor(RunPairs(bs), k), SumFor(LegalPairs(bs), k))
  {
    TallySplits(Empty(), Empty(), Empty(), bs);
    AccumulateAt(RunPairs(bs), k);
    AccumulateAt(LegalPairs(bs), k);
    AccumulateKeys(RunPairs(bs));
    if k in KeysOf(RunPairs(bs)) {
      var i :| 0 <= i < |bs| && KeysOf(RunPairs(bs))[i] == k;
      assert bs[i].bowler == k;
    }
    if exists i :: 0 <= i < |bs| && bs[i].bowler == k {
      var i :| 0 <= i < |bs| && bs[i].bowler == k;
      assert KeysOf(RunPairs(bs))[i] == k;
    }
  }

  /** A delivery the loop skips, one of a match outside the season, leaves the
      stats as they were. */
  lemma SkippedDelivery(a: seq<Record>, row: Record, b: seq<Record>, counted: string -> bool)
    requires "match_id" in row && !counted(row["match_id"])
    ensures BowlerStats(a + [row] + b, counted) == BowlerStats(a + b, counted)
  {
    assert Balls(counted)(row) == Ok(None);
    CollectSkip(a, row, b, Balls(counted));
  }

  // ---------------------------------------------------------------------------
  // Economy

  /** `s['runs'] / (s['balls'] / 6)`, exactly. */
  function Economy(s: Stats): (e: real)
    requires s.balls != 0
    ensures e * (s.balls as real) == 6.0 * (s.runs as real)
  {
    (s.runs as real) / ((s.balls as real) / 6.0)
  }

  /** A bowler's entry in the economy dict: left out below minBalls legal
      balls, otherwise its economy, which divides by zero when it has no legal
      balls. */
  function EconomyOf(minBalls: int): ((string, Stats)) -> Result<Option<(string, real)>> {
    (item: (string, Stats)) =>
      if item.1.balls < minBalls then Ok(None)
      else if item.1.balls == 0 then Err(ZeroDivisionError)
      else Ok(Some((item.0, Economy(item.1))))
  }

  /** The filtered dict and the economy dict built from it, as its item list. */
  function Economies(stats: Dict<string, Stats>, minBalls: int): Result<seq<(string, real)>>
    requires Valid(stats)
  {
    Collect(Items(stats), EconomyOf(minBalls))
  }

  lemma {:induction false} EconomyKeys(items: seq<(string, Stats)>, minBalls: int)
    requires Distinct(KeysOf(items)) && Collect(items, EconomyOf(minBalls)).Ok?
    ensures Distinct(KeysOf(Collect(items, EconomyOf(minBalls)).value))
    ensures forall k :: k in KeysOf(Collect(items, EconomyOf(minBalls)).value) ==> k in KeysOf(items)
  {
    if items != [] {
      var f := EconomyOf(minBalls);
      KeysOfCons(items);
      DistinctCons(items[0].0, KeysOf(items[1..]));
      EconomyKeys(items[1..], minBalls);
      var rest := Collect(items[1..], f).value;
      if f(items[0]).value.Some? {
        var e := Collect(items, f).value;
        assert e == [(items[0].0, Economy(items[0].1))] + rest;
        KeysOfCons(e);
        assert e[1..] == rest;
        DistinctCons(items[0].0, KeysOf(rest));
      }
    }
  }

  /** The economy dict: it raises ZeroDivisionError exactly when some bowler
      passes the filter with no legal balls, which needs minBalls <= 0; when
      it does not raise, a bowler appears at most once, and with economy e
      exactly when they passed the filter and e is their economy. */
  lemma EconomiesAt(stats: Dict<string, Stats>, minBalls: int)
    requires Valid(stats)
    ensures Economies(stats, minBalls).Err? <==>
      minBalls <= 0 && exists b :: b in stats.items && stats.items[b].balls == 0
    ensures Economies(stats, minBalls).Err? ==> Economies(stats, minBalls).error == ZeroDivisionError
    ensures Economies(stats, minBalls).Ok? ==> Distinct(KeysOf(Economies(stats, minBalls).value))
    ensures Economies(stats, minBalls).Ok? ==> forall b, e ::
      (b, e) in Economies(stats, minBalls).value <==>
        b in stats.items && stats.items[b].balls >= minBalls && stats.items[b].balls != 0 && e == Economy(stats.items[b])
  {
    var items := Items(stats);
    var f := EconomyOf(minBalls);
    CollectErr(items, f);
    assert KeysOf(items) == stats.keys;
    if exists b :: b in stats.items && stats.items[b].balls == 0 && minBalls <= 0 {
      var b :| b in stats.items && stats.items[b].balls == 0 && minBalls <= 0;
      var i :| 0 <= i < |stats.keys| && stats.keys[i] == b;
      assert f(items[i]).Err?;
    }
    if Collect(items, f).Ok? {
      EconomyKeys(items, minBalls);
      forall b, e ensures (b, e) in Collect(items, f).value <==>
        b in stats.items && stats.items[b].balls >= minBalls && stats.items[b].balls != 0 && e == Economy(stats.items[b])
      {
        CollectMember(items, f, (b, e));
        if b in stats.items {
          var i :| 0 <= i < |stats.keys| && stats.keys[i] == b;
          assert items[i] == (b, stats.items[b]);
        }
      }
    }
  }

  /** The hyphen-named script's economy loop: a bowler with more than zero legal
      balls gets an economy; it never divides by zero. */
  method EconomyLoop(stats: Dict<string, Stats>) returns (economy: seq<(string, real)>)
    requires Valid(stats)
    ensures Economies(stats, 1) == Ok(economy)
    ensures forall b, e :: (b, e) in economy <==> b in stats.items && stats.items[b].balls > 0 && e == Economy(stats.items[b])
  {
    var items := Items(stats);
    var f := EconomyOf(1);
    economy := [];
    var i := 0;
    PrependNothing(Collect(items, f));
    while i < |items|
      invariant 0 <= i <= |items|
      invariant Collect(items, f) == Prepend(economy, Collect(items[i..], f))
    {
      assert items[i..][0] == items[i] && items[i..][1..] == items[i + 1..];
      CollectStep(items[i..], f);
      if items[i].1.balls > 0 {
        var eco := Economy(items[i].1);
        PrependAssoc(economy, [(items[i].0, eco)], Collect(items[i + 1..], f));
        economy := economy + [(items[i].0, eco)];
      } else {
        PrependAssoc(economy, [], Collect(items[i + 1..], f));
        assert economy + [] == economy;
      }
      i := i + 1;
    }
    assert economy + [] == economy;
    EconomiesAt(stats, 1);
  }

  // ---------------------------------------------------------------------------
  // The ten lowest

  predicate EconomyLe(a: (string, real), b: (string, real)) {
    a.1 <= b.1
  }

  lemma EconomyLeTotal()
    ensures TotalPreorder(EconomyLe)
  {
  }

  /** `sorted(economy.items(), key=lambda x: x[1])[:10]` */
  function TopTen(economy: seq<(string, real)>): seq<(string, real)> {
    Take(Sort(economy, EconomyLe), 10)
  }

  /** The ranking: as many entries as there are bowlers, up to ten; ascending
      economies; every entry one of the input's, with an economy no higher
      than that of any input entry left out. */
  lemma TopTenFacts(economy: seq<(string, real)>)
    ensures |TopTen(economy)| == if |economy| < 10 then |economy| else 10
    ensures forall i, j :: 0 <= i < j < |TopTen(economy)| ==> TopTen(economy)[i].1 <= TopTen(economy)[j].1
    ensures forall p :: p in TopTen(economy) ==> p in economy
    ensures forall p, q :: p in TopTen(economy) && q in economy && q !in TopTen(economy) ==> p.1 <= q.1
  {
    EconomyLeTotal();
    var top := TopTen(economy);
    SortTake(economy, EconomyLe, 10);
    SortTakeFrom(economy, EconomyLe, 10);
    SortTakeOmitted(economy, EconomyLe, 10);
    forall i, j | 0 <= i < j < |top| ensures top[i].1 <= top[j].1 {
      assert EconomyLe(top[i], top[j]);
    }
    forall p, q | p in top && q in economy && q !in top ensures p.1 <= q.1 {
      assert EconomyLe(p, q);
    }
  }

  /** Entries of equal economy keep their input order, and a bowler is listed
      at most once when the input has each at most once. */
  lemma TopTenStable(economy: seq<(string, real)>)
    ensures forall c :: Ties(TopTen(economy), c, EconomyLe) <= Ties(economy, c, EconomyLe)
    ensures Distinct(KeysOf(economy)) ==> Distinct(KeysOf(TopTen(economy)))
  {
    EconomyLeTotal();
    forall c ensures Ties(TopTen(economy), c, EconomyLe) <= Ties(economy, c, EconomyLe) {
      SortTakeStable(economy, EconomyLe, 10, c);
    }
    if Distinct(KeysOf(economy)) {
      SortTakeKeysDistinct(economy, EconomyLe, 10);
    }
  }

  // ---------------------------------------------------------------------------
  // The two scripts

  /** What the ranking returns, or the exception it raises. */
  function TopEconomical(deliveries: seq<Record>, counted: string -> bool, minBalls: int): Result<seq<(string, real)>> {
    match BowlerStats(deliveries, counted)
    case Err(e) => Err(e)
    case Ok(stats) =>
      match Economies(stats, minBalls)
      case Err(e) => Err(e)
      case Ok(economy) => Ok(TopTen(economy))
  }

  /** calculate_top_economical_bowlers: the tally over the deliveries of the
      given match ids, then the pure filter, economy and ranking steps. At most
      ten distinct bowlers come back, in ascending economy; with a positive
      minimum no division by zero can occur. */
  method CalculateTopEconomicalBowlers(deliveries: seq<Record>, ids: seq<string>, minBalls: int)
    returns (r: Result<seq<(string, real)>>)
    ensures r == TopEconomical(deliveries, id => id in ids, minBalls)
    ensures minBalls > 0 ==> (r.Err? <==> BowlerStats(deliveries, id => id in ids).Err?)
    ensures r.Ok? ==> |r.value| <= 10 && Distinct(KeysOf(r.value))
    ensures r.Ok? ==> forall i, j :: 0 <= i < j < |r.value| ==> r.value[i].1 <= r.value[j].1
  {
    var stats :- TallyBowlers(deliveries, id => id in ids);
    EconomiesAt(stats, minBalls);
    var economy :- Economies(stats, minBalls);
    TopTenFacts(economy);
    TopTenStable(economy);
    r := Ok(TopTen(economy));
  }

  /** top_economical_bowlers: the 2015 match ids as a list, the tally, the
      economy loop over bowlers with legal balls, and the ranking. */
  method TopEconomicalBowlers(deliveries: seq<Record>, matches: seq<Record>) returns (r: Result<seq<(string, real)>>)
    ensures Collect(matches, InSeason("2015")).Err? ==> r == Err(Collect(matches, InSeason("2015")).error)
    ensures Collect(matches, InSeason("2015")).Ok? ==>
      var ids := Collect(matches, InSeason("2015")).value;
      r == TopEconomical(deliveries, id => id in ids, 1)
    ensures r.Ok? ==> |r.value| <= 10 && Distinct(KeysOf(r.value))
    ensures r.Ok? ==> forall i, j :: 0 <= i < j < |r.value| ==> r.value[i].1 <= r.value[j].1
  {
    var ids :- SeasonIds(matches, "2015");
    var stats :- TallyBowlers(deliveries, id => id in ids);
    var economy := EconomyLoop(stats);
    EconomiesAt(stats, 1);
    TopTenFacts(economy);
    TopTenStable(economy);
    r := Ok(TopTen(economy));
  }
}
