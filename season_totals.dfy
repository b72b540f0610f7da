/** Matches played per season: each match row counts once under its season,
    read as an integer; the bar chart lists the seasons in ascending order with
    their counts alongside. */
module SeasonTotals {
  import opened Builtins
  import opened Dicts
  import opened Sorting
  import opened GroupBy

  /** int(row['season']) */
  function SeasonOf(row: Record): Result<Option<int>> {
    var text :- Field(row, "season");
    var season :- ParseInt(text);
    Ok(Some(season))
  }

  /** int(row['season']), then int(row['id']), whose value is never used. */
  function SeasonCheckingIdOf(row: Record): Result<Option<int>> {
    var text :- Field(row, "season");
    var season :- ParseInt(text);
    var idText :- Field(row, "id");
    var id :- ParseInt(idText);
    Ok(Some(season))
  }

  /** What one row gives the season reader: the parsed season, or KeyError
      for a missing column, or the parser's ValueError. */
  lemma SeasonRow(row: Record)
    ensures SeasonOf(row).Err? <==> "season" !in row || ParseInt(row["season"]).Err?
    ensures SeasonOf(row).Ok? ==> SeasonOf(row) == Ok(Some(ParseInt(row["season"]).value))
    ensures SeasonOf(row).Err? ==>
      SeasonOf(row).error == (if "season" !in row then KeyError("season") else ValueError(row["season"]))
  {
  }

  /** A row the id-checking reader rejects. */
  predicate BadMatchRow(row: Record) {
    || "season" !in row || ParseInt(row["season"]).Err?
    || "id" !in row || ParseInt(row["id"]).Err?
  }

  /** The loading loop keeping `{season: int(row[season])}` per row: one season
      per row, in row order, each the integer the row's season text spells. It
      raises exactly when some row has no season or a season that is not an
      integer, with KeyError or ValueError for the first such row. */
  method LoadMatches(rows: seq<Record>) returns (r: Result<seq<int>>)
    ensures r == Collect(rows, SeasonOf)
    ensures r.Ok? ==> |r.value| == |rows|
    ensures r.Ok? ==> forall i :: 0 <= i < |rows| ==> "season" in rows[i] && ParseInt(rows[i]["season"]) == Ok(r.value[i])
    ensures r.Err? <==> exists i :: 0 <= i < |rows| && ("season" !in rows[i] || ParseInt(rows[i]["season"]).Err?)
    ensures r.Err? ==> exists i :: 0 <= i < |rows|
                         && r.error == (if "season" !in rows[i] then KeyError("season") else ValueError(rows[i]["season"]))
                         && forall j :: 0 <= j < i ==> "season" in rows[j] && ParseInt(rows[j]["season"]).Ok?
  {
    r := CollectLoop(rows, SeasonOf);
    forall i | 0 <= i < |rows| {
      SeasonRow(rows[i]);
    }
    CollectErr(rows, SeasonOf);
    if r.Ok? {
      CollectMap(rows, SeasonOf);
    }
  }

  /** The count of matches per season: how often each season occurs, present
      exactly for the seasons that occur, in first-seen order, adding up to the
      number of matches. */
  method CountMatches(seasons: seq<int>) returns (d: Dict<int, int>)
    ensures d == Accumulate(Units(seasons)) && Valid(d)
    ensures forall s :: Get(d, s, 0) == multiset(seasons)[s]
    ensures forall s :: s in d.items <==> s in seasons
    ensures d.keys == Dedup(seasons)
    ensures Total(d) == |seasons|
  {
    d := AccumulateLoop(Units(seasons));
    forall s ensures Get(d, s, 0) == multiset(seasons)[s] && (s in d.items <==> s in seasons) {
      CountAt(seasons, s);
    }
    CountAt(seasons, 0);
    UnitsSums(seasons, 0);
    AccumulateKeys(Units(seasons));
  }

  /** The one-pass count over the row dicts: the same dict as loading the
      seasons and counting them, so under each season the number of rows whose
      season is that integer, and in all as many as there are rows. */
  method MatchesPerSeason(rows: seq<Record>) returns (r: Result<Dict<int, int>>)
    ensures r == GroupSum(rows, CountBy(SeasonOf))
    ensures r == match Collect(rows, SeasonOf)
      case Err(e) => Err(e)
      case Ok(seasons) => Ok(Accumulate(Units(seasons)))
    ensures r.Ok? ==> Valid(r.value) && forall s :: Get(r.value, s, 0) == Hits(rows, SeasonOf, s)
    ensures r.Ok? ==> Total(r.value) == |rows|
  {
    r := GroupSumLoop(rows, CountBy(SeasonOf));
    GroupCount(rows, SeasonOf);
    if r.Ok? {
      forall s ensures Get(r.value, s, 0) == Hits(rows, SeasonOf, s) {
        GroupCountAt(rows, SeasonOf, s);
      }
      GroupCountAt(rows, SeasonOf, 0);
      CollectMap(rows, SeasonOf);
      CountHits(rows, SeasonOf, 0);
    }
  }

  /** The id-checking reader fails exactly on the rows it rejects, and
      otherwise reads the same season as the plain reader. */
  lemma CheckingIdRow(row: Record)
    ensures SeasonCheckingIdOf(row).Err? <==> BadMatchRow(row)
    ensures SeasonCheckingIdOf(row).Ok? ==> SeasonCheckingIdOf(row) == SeasonOf(row)
  {
  }

  /** The set-or-increment count that also parses each row's id: it raises
      exactly when some row lacks a season or an id or has one that is not an
      integer, even though the id never reaches the counts; when it completes it
      is the count of matches per season, every count at least 1. */
  method CountMatchesCheckingIds(rows: seq<Record>) returns (r: Result<Dict<int, int>>)
    ensures r == GroupSum(rows, CountBy(SeasonCheckingIdOf))
    ensures r.Err? <==> exists i :: 0 <= i < |rows| && BadMatchRow(rows[i])
    ensures r.Ok? ==> r == GroupSum(rows, CountBy(SeasonOf))
    ensures r.Ok? ==> forall s :: s in r.value.items ==> r.value.items[s] >= 1
  {
    r := GroupSumLoop(rows, CountBy(SeasonCheckingIdOf));
    GroupCount(rows, SeasonCheckingIdOf);
    forall i | 0 <= i < |rows| {
      CheckingIdRow(rows[i]);
    }
    CollectErr(rows, SeasonCheckingIdOf);
    if r.Ok? {
      CollectAgree(rows, SeasonCheckingIdOf, SeasonOf);
      GroupCount(rows, SeasonOf);
      forall s | s in r.value.items ensures r.value.items[s] >= 1 {
        GroupCountAt(rows, SeasonCheckingIdOf, s);
      }
    }
  }

  /** `seasons = sorted(d.keys())` with `[d[s] for s in seasons]` beside it:
      every season of the dict exactly once, strictly ascending, each bar's
      height the count stored for its season. */
  function SeasonBars(d: Dict<int, int>): (r: (seq<int>, seq<int>))
    requires Valid(d)
    ensures |r.0| == |r.1| == |d.keys|
    ensures forall i, j :: 0 <= i < j < |r.0| ==> r.0[i] < r.0[j]
    ensures forall s :: s in r.0 <==> s in d.items
    ensures forall i :: 0 <= i < |r.0| ==> r.0[i] in d.items && r.1[i] == d.items[r.0[i]]
  {
    var seasons := SortedInts(d.keys);
    (seasons, seq(|seasons|, i requires 0 <= i < |seasons| => d.items[seasons[i]]))
  }
}
