/** The join filter shared by the economy and extra-runs scripts: the ids of
    the matches of one season, gathered from the match rows, against which the
    deliveries' `match_id` is later tested with `in`. Whether the ids are
    gathered into a set or a list only changes duplicates, which `in` cannot
    see, so both are a sequence here. */
module MatchIds {
  import opened Builtins

  /** One match row: `if match['season'] == season: ids.add(match['id'])`. The
      season column is read first; the id column only for a matching row. */
  function IdInSeason(season: string, row: Record): Result<Option<string>> {
    var s :- Field(row, "season");
    if s == season then
      var id :- Field(row, "id");
      Ok(Some(id))
    else
      Ok(None)
  }

  function InSeason(season: string): Record -> Result<Option<string>> {
    row => IdInSeason(season, row)
  }

  /** The id-gathering loop over the match rows. An id is gathered exactly when
      some row has that id and the season exactly equal, as text, to the one
      asked for; the loop raises KeyError exactly when some row lacks the season
      column, or has the season and lacks the id column. */
  method SeasonIds(rows: seq<Record>, season: string) returns (r: Result<seq<string>>)
    ensures r == Collect(rows, InSeason(season))
    ensures r.Ok? ==> forall id :: id in r.value <==>
      exists i :: 0 <= i < |rows| && "season" in rows[i] && rows[i]["season"] == season && Field(rows[i], "id") == Ok(id)
    ensures r.Err? <==>
      exists i :: 0 <= i < |rows| && ("season" !in rows[i] || (rows[i]["season"] == season && "id" !in rows[i]))
    ensures r.Err? ==> r.error == KeyError("season") || r.error == KeyError("id")
  {
    r := CollectLoop(rows, InSeason(season));
    CollectErr(rows, InSeason(season));
    if r.Ok? {
      forall id ensures id in r.value <==>
        exists i :: 0 <= i < |rows| && "season" in rows[i] && rows[i]["season"] == season && Field(rows[i], "id") == Ok(id)
      {
        CollectMember(rows, InSeason(season), id);
      }
    }
  }
}
