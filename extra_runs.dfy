/** Extra runs conceded per bowling team in one season. The match rows decide
    which match ids belong to the season, either through a match-id-to-season
    dict or through a collection of ids; a delivery of such a match adds its
    extra_runs, read as an integer, under its bowling team. */
module ExtraRuns {
  import opened Builtins
  import opened Dicts
  import opened GroupBy
  import opened MatchIds
  import NaiveCsv

  // ---------------------------------------------------------------------------
  // The match-id-to-season dict

  /** `match_season_map[match['id']] = match[SEASON]`: the right-hand side, the
      season, is read before the id. */
  function IdSeasonOf(row: Record): Result<Option<(string, string)>> {
    var season :- Field(row, "season");
    var id :- Field(row, "id");
    Ok(Some((id, season)))
  }

  /** The dict the loop builds, or the exception it raises. */
  function SeasonMap(rows: seq<Record>): Result<Dict<string, string>> {
    match Collect(rows, IdSeasonOf)
    case Err(e) => Err(e)
    case Ok(ps) => Ok(FromPairs(ps))
  }

  function PutFinish(d: Dict<string, string>, r: Result<seq<(string, string)>>): Result<Dict<string, string>>
    requires Valid(d)
  {
    match r
    case Err(e) => Err(e)
    case Ok(ps) => Ok(PutAll(d, ps))
  }

  /** The loop filling the match-id-to-season dict. It raises KeyError exactly
      when some row lacks the season or the id column; otherwise every row's id
      is a key, no other key is, and an id that no later row repeats maps to its
      row's season, so for a repeated id the last row wins. */
  method LoadMatchSeasons(rows: seq<Record>) returns (r: Result<Dict<string, string>>)
    ensures r == SeasonMap(rows)
    ensures r.Err? <==> exists i :: 0 <= i < |rows| && ("season" !in rows[i] || "id" !in rows[i])
    ensures r.Ok? ==> Valid(r.value) && forall i :: 0 <= i < |rows| ==> "season" in rows[i] && "id" in rows[i]
    ensures r.Ok? ==> forall id :: id in r.value.items <==> exists i :: 0 <= i < |rows| && rows[i]["id"] == id
    ensures r.Ok? ==> forall i :: 0 <= i < |rows| && (forall j :: i < j < |rows| ==> rows[j]["id"] != rows[i]["id"]) ==>
      r.value.items[rows[i]["id"]] == rows[i]["season"]
  {
    var d: Dict<string, string> := Empty();
    var i := 0;
    while i < |rows|
      invariant 0 <= i <= |rows| && Valid(d)
      invariant SeasonMap(rows) == PutFinish(d, Collect(rows[i..], IdSeasonOf))
    {
      assert rows[i..][0] == rows[i] && rows[i..][1..] == rows[i + 1..];
      var step := IdSeasonOf(rows[i]);
      if step.Err? {
        r := Err(step.error);
        break;
      }
      var p := step.value.value;
      if Collect(rows[i + 1..], IdSeasonOf).Ok? {
        var ps := Collect(rows[i + 1..], IdSeasonOf).value;
        assert ([p] + ps)[1..] == ps;
      }
      d := Put(d, p.0, p.1);
      i := i + 1;
    }
    if i == |rows| {
      r := Ok(d);
    }
    SeasonMapFacts(rows);
  }

  lemma SeasonMapFacts(rows: seq<Record>)
    ensures SeasonMap(rows).Err? <==> exists i :: 0 <= i < |rows| && ("season" !in rows[i] || "id" !in rows[i])
    ensures SeasonMap(rows).Ok? ==> Valid(SeasonMap(rows).value) && forall i :: 0 <= i < |rows| ==> "season" in rows[i] && "id" in rows[i]
    ensures SeasonMap(rows).Ok? ==> forall id :: id in SeasonMap(rows).value.items <==> exists i :: 0 <= i < |rows| && rows[i]["id"] == id
    ensures SeasonMap(rows).Ok? ==> forall i :: 0 <= i < |rows| && (forall j :: i < j < |rows| ==> rows[j]["id"] != rows[i]["id"]) ==>
      SeasonMap(rows).value.items[rows[i]["id"]] == rows[i]["season"]
  {
    CollectErr(rows, IdSeasonOf);
    if SeasonMap(rows).Ok? {
      var ps := Collect(rows, IdSeasonOf).value;
      CollectMap(rows, IdSeasonOf);
      forall id ensures id in SeasonMap(rows).value.items <==> exists i :: 0 <= i < |rows| && rows[i]["id"] == id {
        SeasonMapKeys(rows, ps, id);
      }
      forall i | 0 <= i < |rows| && (forall j :: i < j < |rows| ==> rows[j]["id"] != rows[i]["id"])
        ensures SeasonMap(rows).value.items[rows[i]["id"]] == rows[i]["season"]
      {
        SeasonMapLast(rows, ps, i);
      }
    }
  }

  lemma SeasonMapKeys(rows: seq<Record>, ps: seq<(string, string)>, id: string)
    requires |ps| == |rows| && forall i :: 0 <= i < |rows| ==> "id" in rows[i] && ps[i].0 == rows[i]["id"]
    ensures id in FromPairs(ps).items <==> exists i :: 0 <= i < |rows| && rows[i]["id"] == id
  {
    PutAllKeys(Empty(), ps);
    DedupProps(KeysOf(ps));
    if exists i :: 0 <= i < |rows| && rows[i]["id"] == id {
      var i :| 0 <= i < |rows| && rows[i]["id"] == id;
      assert KeysOf(ps)[i] == id;
    }
  }

  lemma SeasonMapLast(rows: seq<Record>, ps: seq<(string, string)>, i: nat)
    requires |ps| == |rows| && forall k :: 0 <= k < |rows| ==> "id" in rows[k] && "season" in rows[k] && ps[k] == (rows[k]["id"], rows[k]["season"])
    requires i < |rows| && forall j :: i < j < |rows| ==> rows[j]["id"] != rows[i]["id"]
    ensures rows[i]["id"] in FromPairs(ps).items && FromPairs(ps).items[rows[i]["id"]] == rows[i]["season"]
  {
    var later := KeysOf(ps[i + 1..]);
    forall k | 0 <= k < |later| ensures later[k] != ps[i].0 {
      assert later[k] == ps[i + 1 + k].0;
    }
    PutAllLast(Empty(), ps, i);
  }

  // ---------------------------------------------------------------------------
  // The per-team sum over the counted deliveries

  /** A delivery row: its match_id is read first; a delivery of a match that is
      not counted is skipped, any other adds int(extra_runs) under its bowling
      team. */
  function ExtraOf(counted: string -> bool, row: Record): Result<Option<(string, int)>> {
    var id :- Field(row, "match_id");
    if !counted(id) then Ok(None)
    else
      var team :- Field(row, "bowling_team");
      var text :- Field(row, "extra_runs");
      var extras :- ParseInt(text);
      Ok(Some((team, extras)))
  }

  function Extras(counted: string -> bool): Projection<string> {
    row => ExtraOf(counted, row)
  }

  /** The deliveries of counted matches, in order. */
  function Selected(rows: seq<Record>, counted: string -> bool): seq<Record> {
    if rows == [] then []
    else (if "match_id" in rows[0] && counted(rows[0]["match_id"]) then [rows[0]] else []) + Selected(rows[1..], counted)
  }

  /** A delivery row the summing loop raises on. */
  predicate BadExtra(counted: string -> bool, row: Record) {
    || "match_id" !in row
    || (counted(row["match_id"]) && ("bowling_team" !in row || "extra_runs" !in row || ParseInt(row["extra_runs"]).Err?))
  }

  lemma {:induction false} SelectedSame(rows: seq<Record>, counted: string -> bool)
    requires Collect(rows, Extras(counted)).Ok?
    ensures Collect(Selected(rows, counted), Extras(counted)) == Collect(rows, Extras(counted))
  {
    if rows != [] {
      var f := Extras(counted);
      SelectedSame(rows[1..], counted);
      var rest := Selected(rows[1..], counted);
      assert f(rows[0]).Ok?;
      if counted(rows[0]["match_id"]) {
        var s := [rows[0]] + rest;
        assert Selected(rows, counted) == s;
        assert s[0] == rows[0] && s[1..] == rest;
      } else {
        assert f(rows[0]) == Ok(None);
        assert Selected(rows, counted) == [] + rest == rest;
        assert Collect(rows, f) == Collect(rows[1..], f);
      }
    }
  }

  /** A delivery is among the selected ones exactly when it is one of the
      deliveries, has a match_id, and that match is counted. */
  lemma {:induction false} SelectedMember(rows: seq<Record>, counted: string -> bool, row: Record)
    ensures row in Selected(rows, counted) <==> row in rows && "match_id" in row && counted(row["match_id"])
  {
    if rows != [] {
      SelectedMember(rows[1..], counted, row);
      assert rows == [rows[0]] + rows[1..];
    }
  }

  /** The summing loop over the deliveries. It raises exactly when some
      delivery lacks a match_id, or belongs to a counted match and lacks its
      bowling team or extras or has extras that are not an integer. Otherwise
      only the deliveries of counted matches matter: summing over those alone
      gives the same dict. Each team's value is the sum of the extras of its
      counted deliveries, the keys are exactly those teams in first-seen
      order, and the values add up to all the counted extras. */
  method ExtrasPerTeam(deliveries: seq<Record>, counted: string -> bool) returns (r: Result<Dict<string, int>>)
    ensures r == GroupSum(deliveries, Extras(counted))
    ensures r.Err? <==> exists i :: 0 <= i < |deliveries| && BadExtra(counted, deliveries[i])
    ensures r.Ok? ==> r == GroupSum(Selected(deliveries, counted), Extras(counted))
    ensures r.Ok? ==> Valid(r.value) && forall t :: Get(r.value, t, 0) == RowSum(deliveries, Extras(counted), t)
    ensures r.Ok? ==> forall t :: t in r.value.items <==> t in RowKeys(deliveries, Extras(counted))
    ensures r.Ok? ==> r.value.keys == Dedup(RowKeys(deliveries, Extras(counted)))
    ensures r.Ok? ==> Total(r.value) == RowTotal(deliveries, Extras(counted))
  {
    r := GroupSumLoop(deliveries, Extras(counted));
    GroupSumErr(deliveries, Extras(counted));
    if r.Ok? {
      SelectedSame(deliveries, counted);
      forall t ensures Get(r.value, t, 0) == RowSum(deliveries, Extras(counted), t)
        && (t in r.value.items <==> t in RowKeys(deliveries, Extras(counted)))
      {
        GroupSumAt(deliveries, Extras(counted), t);
      }
      GroupSumAt(deliveries, Extras(counted), "");
    }
  }

  // ---------------------------------------------------------------------------
  // The three scripts

  /** The season test against the match-id-to-season dict:
      `match_season_map.get(match_id) != target_season` skips, so an id the
      dict does not know is skipped too. */
  function InTargetSeason(seasons: Dict<string, string>, target: string): string -> bool {
    id => id in seasons.items && seasons.items[id] == target
  }

  /** calculate_extra_runs over the match-id-to-season dict: a delivery counts
      exactly when the dict maps its match_id to the target season. */
  method CalculateExtraRuns(deliveries: seq<Record>, seasons: Dict<string, string>, target: string)
    returns (r: Result<Dict<string, int>>)
    ensures r == GroupSum(deliveries, Extras(InTargetSeason(seasons, target)))
    ensures r.Ok? ==> r == GroupSum(Selected(deliveries, InTargetSeason(seasons, target)), Extras(InTargetSeason(seasons, target)))
    ensures r.Ok? ==> forall t :: Get(r.value, t, 0) == RowSum(deliveries, Extras(InTargetSeason(seasons, target)), t)
    ensures r.Ok? ==> Total(r.value) == RowTotal(deliveries, Extras(InTargetSeason(seasons, target)))
  {
    r := ExtrasPerTeam(deliveries, InTargetSeason(seasons, target));
  }

  /** The match rows of every `.csv` entry, file after file: what DictReader
      yields over the folder. */
  function CsvRows(files: seq<(string, seq<Record>)>): seq<Record> {
    if files == [] then []
    else (if NaiveCsv.IsCsv(files[0].0) then files[0].1 else []) + CsvRows(files[1..])
  }

  method CsvRowsLoop(files: seq<(string, seq<Record>)>) returns (rows: seq<Record>)
    ensures rows == CsvRows(files)
  {
    rows := [];
    var i := 0;
    while i < |files|
      invariant 0 <= i <= |files|
      invariant CsvRows(files) == rows + CsvRows(files[i..])
    {
      assert files[i..][0] == files[i] && files[i..][1..] == files[i + 1..];
      if NaiveCsv.IsCsv(files[i].0) {
        rows := rows + files[i].1;
      }
      i := i + 1;
    }
    assert files[i..] == [];
  }

  /** The 2016 id set from the match rows, then the per-team sum over the
      deliveries whose match_id is in it (the id-list script, and the
      folder script once its `.csv` files are read). */
  method CalculateFor2016(deliveries: seq<Record>, matches: seq<Record>) returns (r: Result<Dict<string, int>>)
    ensures Collect(matches, InSeason("2016")).Err? ==> r == Err(Collect(matches, InSeason("2016")).error)
    ensures Collect(matches, InSeason("2016")).Ok? ==>
      var ids := Collect(matches, InSeason("2016")).value;
      r == GroupSum(deliveries, Extras(id => id in ids))
  {
    var ids :- SeasonIds(matches, "2016");
    r := ExtrasPerTeam(deliveries, id => id in ids);
  }

  /** calculate_extra_runs over the two folders: the ids of the 2016 matches
      of the `.csv` match files, then the per-team sum over the `.csv`
      delivery files. */
  method CalculateExtraRunsInFolders(deliveryFiles: seq<(string, seq<Record>)>, matchFiles: seq<(string, seq<Record>)>)
    returns (r: Result<Dict<string, int>>)
    ensures Collect(CsvRows(matchFiles), InSeason("2016")).Ok? ==>
      var ids := Collect(CsvRows(matchFiles), InSeason("2016")).value;
      r == GroupSum(CsvRows(deliveryFiles), Extras(id => id in ids))
    ensures Collect(CsvRows(matchFiles), InSeason("2016")).Err? ==> r == Err(Collect(CsvRows(matchFiles), InSeason("2016")).error)
  {
    var matches := CsvRowsLoop(matchFiles);
    var deliveries := CsvRowsLoop(deliveryFiles);
    r := CalculateFor2016(deliveries, matches);
  }
}
