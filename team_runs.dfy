/** Runs per batting team: every delivery's total_runs, read as an integer,
    added under its batting team. */
module TeamRuns {
  import opened Builtins
  import opened Dicts
  import opened GroupBy

  /** `{TEAM: row[TEAM], RUNS: int(row[RUNS])}`, evaluated left to right. */
  function TeamRunOf(row: Record): Result<Option<(string, int)>> {
    var team :- Field(row, "batting_team");
    var text :- Field(row, "total_runs");
    var runs :- ParseInt(text);
    Ok(Some((team, runs)))
  }

  /** A delivery row the loaders reject. */
  predicate BadDelivery(row: Record) {
    "batting_team" !in row || "total_runs" !in row || ParseInt(row["total_runs"]).Err?
  }

  /** The loading loop: one (team, runs) pair per row, in row order, with the
      row's batting team and its total_runs as an integer; it raises exactly
      when some row lacks either column or has a total_runs that is not an
      integer. */
  method LoadDeliveries(rows: seq<Record>) returns (r: Result<seq<(string, int)>>)
    ensures r == Collect(rows, TeamRunOf)
    ensures r.Ok? ==> |r.value| == |rows|
    ensures r.Ok? ==> forall i :: 0 <= i < |rows| ==>
      && Field(rows[i], "batting_team") == Ok(r.value[i].0)
      && "total_runs" in rows[i] && ParseInt(rows[i]["total_runs"]) == Ok(r.value[i].1)
    ensures r.Err? <==> exists i :: 0 <= i < |rows| && BadDelivery(rows[i])
  {
    r := CollectLoop(rows, TeamRunOf);
    CollectErr(rows, TeamRunOf);
    if r.Ok? {
      CollectMap(rows, TeamRunOf);
    }
  }

  /** `total_team_runs[team] = total_team_runs.get(team, 0) + runs` over the
      loaded deliveries: each team's runs summed, a key for exactly the teams
      that batted, in first-seen order, the values adding up to all the runs. */
  method CalculateTeamRuns(deliveries: seq<(string, int)>) returns (d: Dict<string, int>)
    ensures d == Accumulate(deliveries) && Valid(d)
    ensures forall t :: Get(d, t, 0) == SumFor(deliveries, t)
    ensures forall t :: t in d.items <==> t in KeysOf(deliveries)
    ensures d.keys == Dedup(KeysOf(deliveries))
    ensures Total(d) == SumAll(deliveries)
  {
    d := AccumulateLoop(deliveries);
    forall t ensures Get(d, t, 0) == SumFor(deliveries, t) && (t in d.items <==> t in KeysOf(deliveries)) {
      AccumulateAt(deliveries, t);
    }
    AccumulateKeys(deliveries);
    AccumulateTotal(deliveries);
  }

  /** The one-pass set-or-increment sum over the row dicts: it raises exactly
      when loading would, and otherwise gives the same dict as loading and then
      summing, so each team's value is the sum of its rows' total_runs, and the
      values add up to the runs of all rows. */
  method CalculateRun(rows: seq<Record>) returns (r: Result<Dict<string, int>>)
    ensures r == GroupSum(rows, TeamRunOf)
    ensures r == match Collect(rows, TeamRunOf)
      case Err(e) => Err(e)
      case Ok(deliveries) => Ok(Accumulate(deliveries))
    ensures r.Err? <==> exists i :: 0 <= i < |rows| && BadDelivery(rows[i])
    ensures r.Ok? ==> Valid(r.value) && forall t :: Get(r.value, t, 0) == RowSum(rows, TeamRunOf, t)
    ensures r.Ok? ==> forall t :: t in r.value.items <==> t in RowKeys(rows, TeamRunOf)
    ensures r.Ok? ==> Total(r.value) == RowTotal(rows, TeamRunOf)
  {
    r := GroupSumLoop(rows, TeamRunOf);
    GroupSumErr(rows, TeamRunOf);
    if r.Ok? {
      forall t ensures Get(r.value, t, 0) == RowSum(rows, TeamRunOf, t) && (t in r.value.items <==> t in RowKeys(rows, TeamRunOf)) {
        GroupSumAt(rows, TeamRunOf, t);
      }
      GroupSumAt(rows, TeamRunOf, "");
    }
  }
}
