/** The stacked bar charts drawn from a season -> team -> count dict: the
    seasons sorted along the x axis, one bar series per team in sorted order,
    a zero where a team has no entry for a season, and each series drawn on
    top of the running column sums of the series before it. */
module Stacking {
  import opened Builtins
  import opened Dicts
  import opened Sorting
  import opened SeasonTeams

  // ---------------------------------------------------------------------------
  // The two axes
  // ---------------------------------------------------------------------------

  /** `sorted(d.keys())` for int keys: every season once, strictly ascending. */
  function SortedSeasons(d: Nested): (r: seq<int>)
    requires ValidNested(d)
    ensures |r| == |d.keys|
    ensures forall i, j :: 0 <= i < j < |r| ==> r[i] < r[j]
    ensures forall s :: s in r <==> s in d.items
  {
    SortedInts(d.keys)
  }

  /** The inner keys of the seasons ks, season after season, repeats kept. */
  function TeamsFrom(d: Nested, ks: seq<int>): seq<string>
    requires ValidNested(d)
  {
    if ks == [] then [] else Inner(d, ks[0]).keys + TeamsFrom(d, ks[1..])
  }

  lemma {:induction false} TeamsFromMember(d: Nested, ks: seq<int>, t: string)
    requires ValidNested(d)
    ensures t in TeamsFrom(d, ks) <==> exists i :: 0 <= i < |ks| && t in Inner(d, ks[i]).items
  {
    if ks != [] {
      TeamsFromMember(d, ks[1..], t);
      if t in TeamsFrom(d, ks) && t !in Inner(d, ks[0]).items {
        var i :| 0 <= i < |ks[1..]| && t in Inner(d, ks[1..][i]).items;
        assert ks[1..][i] == ks[i + 1];
      }
      if exists i :: 0 <= i < |ks| && t in Inner(d, ks[i]).items {
        var i :| 0 <= i < |ks| && t in Inner(d, ks[i]).items;
        if i > 0 {
          assert ks[1..][i - 1] == ks[i];
        }
      }
    }
  }

  /** Some season of d holds an entry for team t. */
  ghost predicate HasTeam(d: Nested, t: string) {
    exists s :: s in d.items && t in d.items[s].items
  }

  /** `sorted({team for season_data in d.values() for team in season_data})`:
      every team that some season holds, once each, ascending by code point. */
  function SortedTeams(d: Nested): (r: seq<string>)
    requires ValidNested(d)
    ensures Distinct(r)
    ensures forall i, j :: 0 <= i < j < |r| ==> StrLe(r[i], r[j]) && r[i] != r[j]
    ensures forall t :: t in r <==> HasTeam(d, t)
  {
    var all := TeamsFrom(d, d.keys);
    DedupProps(all);
    var teams := Sort(Dedup(all), StrLe);
    StrLeTotalOrder();
    SortSorted(Dedup(all), StrLe);
    SortDistinct(Dedup(all), StrLe);
    forall t ensures t in teams <==> HasTeam(d, t) {
      assert t in teams <==> t in multiset(teams);
      assert t in Dedup(all) <==> t in multiset(Dedup(all));
      TeamsFromMember(d, d.keys, t);
      if HasTeam(d, t) {
        var s :| s in d.items && t in d.items[s].items;
        var i :| 0 <= i < |d.keys| && d.keys[i] == s;
        assert t in Inner(d, d.keys[i]).items;
      }
    }
    teams
  }

  /** Two duplicate-free sequences with the same members are permutations of
      each other. */
  lemma SameMembers<T>(a: seq<T>, b: seq<T>)
    requires Distinct(a) && Distinct(b)
    requires forall x :: x in a <==> x in b
    ensures multiset(a) == multiset(b)
  {
    DistinctCount(a);
    DistinctCount(b);
    forall x ensures multiset(a)[x] == multiset(b)[x] {
      assert x in a <==> x in multiset(a);
      assert x in b <==> x in multiset(b);
    }
  }

  /** The team order does not depend on the order the seasons or teams were
      inserted in: any two dicts holding the same teams give the same list. */
  lemma SortedTeamsOrderFree(d: Nested, e: Nested)
    requires ValidNested(d) && ValidNested(e)
    requires forall t :: HasTeam(d, t) <==> HasTeam(e, t)
    ensures SortedTeams(d) == SortedTeams(e)
  {
    var a, b := SortedTeams(d), SortedTeams(e);
    StrLeTotalOrder();
    assert SortedBy(a, StrLe) && SortedBy(b, StrLe);
    SameMembers(a, b);
    SortedPermutationsEqual(a, b, StrLe);
  }

  // ---------------------------------------------------------------------------
  // The matrix: team_counts[team][i] = d[seasons[i]].get(team, 0)
  // ---------------------------------------------------------------------------

  /** The first n counts of team t, one per season: `matches_played[season].get(team, 0)`. */
  ghost function Series(d: Nested, seasons: seq<int>, t: string, n: nat): seq<int>
    requires ValidNested(d) && n <= |seasons|
    requires forall i :: 0 <= i < |seasons| ==> seasons[i] in d.items
  {
    seq(n, k requires 0 <= k < n => Get(d.items[seasons[k]], t, 0))
  }

  /** The nested season/team loops that fill `team_counts`, each team's list
      starting empty and growing by one entry per season. */
  method TeamCounts(d: Nested, seasons: seq<int>, teams: seq<string>) returns (counts: map<string, seq<int>>)
    requires ValidNested(d) && Distinct(teams)
    requires forall i :: 0 <= i < |seasons| ==> seasons[i] in d.items
    ensures forall t :: t in counts <==> t in teams
    ensures forall t :: t in teams ==> |counts[t]| == |seasons|
    ensures forall t, i :: t in teams && 0 <= i < |seasons| ==> counts[t][i] == Get(d.items[seasons[i]], t, 0)
  {
    counts := map t | t in teams :: [];
    var i := 0;
    while i < |seasons|
      invariant 0 <= i <= |seasons|
      invariant forall t :: t in counts <==> t in teams
      invariant forall t :: t in teams ==> counts[t] == Series(d, seasons, t, i)
    {
      var season := seasons[i];
      var j := 0;
      while j < |teams|
        invariant 0 <= j <= |teams|
        invariant forall t :: t in counts <==> t in teams
        invariant forall k :: 0 <= k < j ==> counts[teams[k]] == Series(d, seasons, teams[k], i + 1)
        invariant forall k :: j <= k < |teams| ==> counts[teams[k]] == Series(d, seasons, teams[k], i)
      {
        var team := teams[j];
        assert Series(d, seasons, team, i) + [Get(d.items[season], team, 0)] == Series(d, seasons, team, i + 1);
        counts := counts[team := counts[team] + [Get(d.items[season], team, 0)]];
        j := j + 1;
      }
      forall t | t in teams ensures counts[t] == Series(d, seasons, t, i + 1) {
        var k :| 0 <= k < |teams| && teams[k] == t;
      }
      i := i + 1;
    }
  }

  // ---------------------------------------------------------------------------
  // Stacking the series
  // ---------------------------------------------------------------------------

  /** `team_colors.get(team)`: the colour table of the charts. */
  const TeamColors: map<string, string> := map[
    "Chennai Super Kings" := "#F1C40F",
    "Mumbai Indians" := "#1F77B4",
    "Kolkata Knight Riders" := "#6C3483",
    "Royal Challengers Bangalore" := "#E74C3C",
    "Rajasthan Royals" := "#AF7AC5",
    "Sunrisers Hyderabad" := "#E67E22",
    "Delhi Daredevils" := "#3498DB",
    "Kings XI Punjab" := "#C0392B",
    "Deccan Chargers" := "#808B96",
    "Gujarat Lions" := "#F39C12",
    "Rising Pune Supergiant" := "#8E44AD",
    "Rising Pune Supergiants" := "#BB8FCE",
    "Pune Warriors" := "#16A085"
  ]

  /** `team_colors.get(team)`: a colour for exactly the thirteen listed teams,
      no listed team sharing its colour with another, so their bars can be
      told apart; any other team gets matplotlib's default (None). */
  function ColorOf(team: string): (r: Option<string>)
    ensures r.Some? <==> team in TeamColors
    ensures r.Some? ==> r.value == TeamColors[team]
    ensures r.Some? ==> forall u :: u in TeamColors && u != team ==> TeamColors[u] != r.value
  {
    if team in TeamColors then Some(TeamColors[team]) else None
  }

  /** One `plt.bar(seasons, heights, bottom=base, label=team, color=color)`. */
  datatype Layer = Layer(team: string, heights: seq<int>, base: seq<int>, color: Option<string>)

  /** Column i summed over the series of the teams ts. */
  function ColumnSum(counts: map<string, seq<int>>, ts: seq<string>, i: nat): int
    requires forall t :: t in ts ==> t in counts && i < |counts[t]|
  {
    if ts == [] then 0 else counts[ts[0]][i] + ColumnSum(counts, ts[1..], i)
  }

  /** Every column summed over the series of the teams ts: the `bottom` list
      once those series are drawn. */
  function Column(counts: map<string, seq<int>>, ts: seq<string>, n: nat): (r: seq<int>)
    requires forall t :: t in ts ==> t in counts && |counts[t]| == n
    ensures |r| == n
  {
    seq(n, i requires 0 <= i < n => ColumnSum(counts, ts, i))
  }

  /** The bars drawn, in team order: each team's series on the column sums of
      the series before it. */
  function Layers(counts: map<string, seq<int>>, teams: seq<string>, n: nat): (r: seq<Layer>)
    requires forall t :: t in teams ==> t in counts && |counts[t]| == n
    ensures |r| == |teams|
  {
    seq(|teams|, j requires 0 <= j < |teams| =>
      Layer(teams[j], counts[teams[j]], Column(counts, teams[..j], n), ColorOf(teams[j])))
  }

  lemma {:induction false} ColumnSumSnoc(counts: map<string, seq<int>>, ts: seq<string>, t: string, i: nat)
    requires forall u :: u in ts + [t] ==> u in counts && i < |counts[u]|
    ensures ColumnSum(counts, ts + [t], i) == ColumnSum(counts, ts, i) + counts[t][i]
  {
    if ts != [] {
      assert (ts + [t])[1..] == ts[1..] + [t];
      ColumnSumSnoc(counts, ts[1..], t, i);
    }
  }

  /** Column i summed over the series is the sum over those teams of the
      stored counts, a team absent from the map counting zero. */
  lemma {:induction false} ColumnSumOver(counts: map<string, seq<int>>, ts: seq<string>, i: nat, m: map<string, int>)
    requires forall t :: t in ts ==> t in counts && i < |counts[t]|
    requires forall t :: t in ts ==> counts[t][i] == (if t in m then m[t] else 0)
    ensures ColumnSum(counts, ts, i) == SumOver(ts, m)
  {
    if ts != [] {
      ColumnSumOver(counts, ts[1..], i, m);
    }
  }

  lemma {:induction false} ColumnSumGrows(counts: map<string, seq<int>>, ts: seq<string>, j: nat, k: nat, i: nat)
    requires j <= k <= |ts|
    requires forall t :: t in ts ==> t in counts && i < |counts[t]| && counts[t][i] >= 0
    ensures ColumnSum(counts, ts[..j], i) <= ColumnSum(counts, ts[..k], i)
    decreases k - j
  {
    if j < k {
      ColumnSumGrows(counts, ts, j + 1, k, i);
      assert ts[..j + 1] == ts[..j] + [ts[j]];
      ColumnSumSnoc(counts, ts[..j], ts[j], i);
    }
  }

  /** The bars stand one on another: the first on zero, each next one on the
      top of the one before, and the top of the last is the final `bottom`. */
  lemma LayersStacked(counts: map<string, seq<int>>, teams: seq<string>, n: nat)
    requires forall t :: t in teams ==> t in counts && |counts[t]| == n
    ensures var layers := Layers(counts, teams, n);
      && (teams != [] ==> layers[0].base == seq(n, _ => 0))
      && (forall j, k, i :: 0 <= j && k == j + 1 && k < |teams| && 0 <= i < n ==>
            layers[k].base[i] == layers[j].base[i] + layers[j].heights[i])
      && (forall i :: 0 <= i < n && teams != [] ==>
            Column(counts, teams, n)[i] == layers[|teams| - 1].base[i] + layers[|teams| - 1].heights[i])
  {
    var layers := Layers(counts, teams, n);
    forall j, k, i | 0 <= j && k == j + 1 && k < |teams| && 0 <= i < n
      ensures layers[k].base[i] == layers[j].base[i] + layers[j].heights[i]
    {
      assert teams[..k] == teams[..j] + [teams[j]];
      ColumnSumSnoc(counts, teams[..j], teams[j], i);
    }
    forall i | 0 <= i < n && teams != []
      ensures Column(counts, teams, n)[i] == layers[|teams| - 1].base[i] + layers[|teams| - 1].heights[i]
    {
      var last := |teams| - 1;
      assert teams == teams[..last] + [teams[last]];
      ColumnSumSnoc(counts, teams[..last], teams[last], i);
    }
  }

  lemma ColumnSumWithin(counts: map<string, seq<int>>, teams: seq<string>, j: nat, i: nat)
    requires j <= |teams|
    requires forall t :: t in teams ==> t in counts && i < |counts[t]| && counts[t][i] >= 0
    ensures 0 <= ColumnSum(counts, teams[..j], i) <= ColumnSum(counts, teams, i)
  {
    assert teams[..0] == [];
    ColumnSumGrows(counts, teams, 0, j, i);
    ColumnSumGrows(counts, teams, j, |teams|, i);
    assert teams[..|teams|] == teams;
  }

  /** With no negative count, every bar stands between zero and the final top
      of its column. */
  lemma LayersWithin(counts: map<string, seq<int>>, teams: seq<string>, n: nat, j: nat, i: nat)
    requires forall t :: t in teams ==> t in counts && |counts[t]| == n
    requires forall t, i :: t in teams && 0 <= i < n ==> counts[t][i] >= 0
    requires j < |teams| && i < n
    ensures 0 <= Layers(counts, teams, n)[j].base[i] <= Column(counts, teams, n)[i]
  {
    ColumnSumWithin(counts, teams, j, i);
  }

  /** The series loop: `bottom` starts at zeros, each team's bar is drawn on the
      current `bottom`, which then grows by that team's counts. */
  method Stack(n: nat, teams: seq<string>, counts: map<string, seq<int>>) returns (layers: seq<Layer>, bottom: seq<int>)
    requires forall t :: t in teams ==> t in counts && |counts[t]| == n
    ensures layers == Layers(counts, teams, n)
    ensures bottom == Column(counts, teams, n)
  {
    bottom := seq(n, _ => 0);
    layers := [];
    var j := 0;
    while j < |teams|
      invariant 0 <= j <= |teams| && |layers| == j
      invariant forall k :: 0 <= k < j ==>
        layers[k] == Layer(teams[k], counts[teams[k]], Column(counts, teams[..k], n), ColorOf(teams[k]))
      invariant bottom == Column(counts, teams[..j], n)
    {
      var team := teams[j];
      var color := ColorOf(team);
      var heights := counts[team];
      var next := seq(n, i requires 0 <= i < n => bottom[i] + heights[i]);
      forall i | 0 <= i < n ensures next[i] == ColumnSum(counts, teams[..j + 1], i) {
        assert teams[..j + 1] == teams[..j] + [team];
        ColumnSumSnoc(counts, teams[..j], team, i);
      }
      layers := layers + [Layer(team, heights, bottom, color)];
      bottom := next;
      j := j + 1;
    }
    assert teams[..|teams|] == teams;
  }

  // ---------------------------------------------------------------------------
  // The whole chart
  // ---------------------------------------------------------------------------

  /** Column i of the matrix, summed over the sorted teams, is the total of
      the counts of season i. */
  lemma ColumnTotal(d: Nested, seasons: seq<int>, teams: seq<string>, counts: map<string, seq<int>>, i: nat)
    requires ValidNested(d) && teams == SortedTeams(d)
    requires i < |seasons| && seasons[i] in d.items
    requires forall t :: t in teams ==> t in counts && i < |counts[t]| && counts[t][i] == Get(d.items[seasons[i]], t, 0)
    ensures ColumnSum(counts, teams, i) == Total(d.items[seasons[i]])
  {
    var s := seasons[i];
    var inner := Inner(d, s);
    assert inner == d.items[s];
    ColumnSumOver(counts, teams, i, inner.items);
    forall t | t in inner.items ensures t in teams {
      assert s in d.items && t in d.items[s].items;
    }
    SumOverSame(teams, inner.keys, inner.items);
  }

  /** No count stored in d is negative. */
  ghost predicate NoNegative(d: Nested) {
    forall s, t :: s in d.items && t in d.items[s].items ==> d.items[s].items[t] >= 0
  }

  /** The plotting function of the stacked bar charts, from the nested dict to
      the bar series: each team's list holds its count per sorted season (0
      where the season lacks the team), the series are stacked as `Layers`
      states, and each column's stack reaches exactly the total of its
      season's counts. */
  method PlotStacked(d: Nested) returns (seasons: seq<int>, teams: seq<string>, counts: map<string, seq<int>>, layers: seq<Layer>, bottom: seq<int>)
    requires ValidNested(d)
    ensures seasons == SortedSeasons(d) && teams == SortedTeams(d)
    ensures forall t :: t in counts <==> t in teams
    ensures forall t :: t in teams ==> |counts[t]| == |seasons|
    ensures forall t, i :: t in teams && 0 <= i < |seasons| ==> counts[t][i] == Get(d.items[seasons[i]], t, 0)
    ensures layers == Layers(counts, teams, |seasons|) && bottom == Column(counts, teams, |seasons|)
    ensures forall i :: 0 <= i < |seasons| ==> bottom[i] == Total(d.items[seasons[i]])
    ensures NoNegative(d) ==> forall t, i :: t in teams && 0 <= i < |seasons| ==> counts[t][i] >= 0
  {
    seasons := SortedSeasons(d);
    teams := SortedTeams(d);
    counts := TeamCounts(d, seasons, teams);
    layers, bottom := Stack(|seasons|, teams, counts);
    forall i | 0 <= i < |seasons| ensures bottom[i] == Total(d.items[seasons[i]]) {
      ColumnTotal(d, seasons, teams, counts, i);
    }
    if NoNegative(d) {
      forall t, i | t in teams && 0 <= i < |seasons| ensures counts[t][i] >= 0 {
        var s := seasons[i];
        if t in d.items[s].items {
          assert d.items[s].items[t] >= 0;
        }
      }
    }
  }
}
