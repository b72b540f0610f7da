/** The two-level counts behind the stacked bar charts:

        if season not in d: d[season] = {}
        for team in teams: d[season][team] = d[season].get(team, 0) + 1

    once per row, where a row credits its season with either both teams of a
    match (matches played) or its winner (matches won). The outer dict keeps
    the seasons in first-seen order, each inner dict its teams in first-seen
    order. A per-season inner count is the flat count of the teams credited in
    that season, so the facts about flat counts carry over season by season. */
module SeasonTeams {
  import opened Builtins
  import opened Dicts
  import opened GroupBy
  import opened Sorting

  /** One match as the loaders keep it. */
  datatype Match = Match(season: int, team1: string, team2: string)

  /** A season and the teams one row credits with one more match. */
  type Credit = (int, seq<string>)

  /** season -> team -> count */
  type Nested = Dict<int, Dict<string, int>>

  ghost predicate ValidNested(d: Nested) {
    Valid(d) && forall s :: s in d.items ==> Valid(d.items[s])
  }

  /** The inner dict of season s, or the `{}` the loop would start it with. */
  function Inner(d: Nested, s: int): (r: Dict<string, int>)
    requires ValidNested(d)
    ensures Valid(r)
  {
    if s in d.items then d.items[s] else Empty()
  }

  /** One row's credit applied to the nested dict. */
  function CreditOne(d: Nested, c: Credit): (r: Nested)
    requires ValidNested(d)
    ensures ValidNested(r)
  {
    Put(d, c.0, AccumulateFrom(Inner(d, c.0), Units(c.1)))
  }

  function TallyFrom(d: Nested, cs: seq<Credit>): (r: Nested)
    requires ValidNested(d)
    ensures ValidNested(r)
    decreases |cs|
  {
    if cs == [] then d else TallyFrom(CreditOne(d, cs[0]), cs[1..])
  }

  /** The nested dict after all the credits, started from `{}`. */
  function Tally(cs: seq<Credit>): (r: Nested)
    ensures ValidNested(r)
  {
    assert ValidNested(Empty<int, Dict<string, int>>());
    TallyFrom(Empty(), cs)
  }

  function SeasonsOf(cs: seq<Credit>): seq<int> {
    seq(|cs|, i requires 0 <= i < |cs| => cs[i].0)
  }

  /** The teams credited in season s, in order. */
  function TeamsIn(cs: seq<Credit>, s: int): seq<string> {
    if cs == [] then [] else (if cs[0].0 == s then cs[0].1 else []) + TeamsIn(cs[1..], s)
  }

  // ---------------------------------------------------------------------------
  // The loops

  lemma PutSame(d: Nested, s: int)
    requires ValidNested(d)
    ensures Put(d, s, Inner(d, s)) == Put(d, s, Empty()) || s in d.items
    ensures s in d.items ==> Put(d, s, Inner(d, s)) == d
  {
    if s in d.items {
      assert d.items[s := d.items[s]] == d.items;
    }
  }

  lemma PutTwice(d: Nested, s: int, x: Dict<string, int>, y: Dict<string, int>)
    requires Valid(d)
    ensures Put(Put(d, s, x), s, y) == Put(d, s, y)
  {
    assert d.items[s := x][s := y] == d.items[s := y];
  }

  lemma AccumulateSnoc(start: Dict<string, int>, teams: seq<string>, j: int)
    requires Valid(start) && 0 <= j < |teams|
    ensures AccumulateFrom(start, Units(teams[..j + 1])) == Add(AccumulateFrom(start, Units(teams[..j])), teams[j], 1)
  {
    assert teams[..j + 1] == teams[..j] + [teams[j]];
    UnitsAppend(teams[..j], [teams[j]]);
    AccumulateFromAppend(start, Units(teams[..j]), Units([teams[j]]));
  }

  lemma PutNested(d: Nested, s: int, x: Dict<string, int>)
    requires ValidNested(d) && Valid(x)
    ensures ValidNested(Put(d, s, x)) && Put(d, s, x).items[s] == x
  {
  }

  /** `if season not in d: d[season] = {}` leaves d as it is before any team is counted. */
  lemma CreditStart(d: Nested, s: int, teams: seq<string>)
    requires ValidNested(d)
    ensures (if s in d.items then d else Put(d, s, Empty())) == Put(d, s, AccumulateFrom(Inner(d, s), Units(teams[..0])))
  {
    assert Units(teams[..0]) == [];
    PutSame(d, s);
  }

  /** One pass of the inner loop: `d[season][team] = d[season].get(team, 0) + 1`. */
  lemma CreditTeam(d: Nested, s: int, start: Dict<string, int>, teams: seq<string>, j: int)
    requires ValidNested(d) && Valid(start) && 0 <= j < |teams|
    ensures ValidNested(Put(d, s, AccumulateFrom(start, Units(teams[..j]))))
    ensures var r := Put(d, s, AccumulateFrom(start, Units(teams[..j])));
      Put(r, s, Add(r.items[s], teams[j], 1)) == Put(d, s, AccumulateFrom(start, Units(teams[..j + 1])))
  {
    var before := AccumulateFrom(start, Units(teams[..j]));
    PutNested(d, s, before);
    AccumulateSnoc(start, teams, j);
    PutTwice(d, s, before, Add(before, teams[j], 1));
  }

  /** `if season not in d: d[season] = {}` and the inner loop over the teams. */
  method CreditLoop(d: Nested, s: int, teams: seq<string>) returns (r: Nested)
    requires ValidNested(d)
    ensures r == CreditOne(d, (s, teams)) && ValidNested(r)
  {
    var start := Inner(d, s);
    r := d;
    if s !in r.items {
      r := Put(r, s, Empty());
    }
    CreditStart(d, s, teams);
    var j := 0;
    while j < |teams|
      invariant 0 <= j <= |teams|
      invariant r == Put(d, s, AccumulateFrom(start, Units(teams[..j])))
    {
      CreditTeam(d, s, start, teams, j);
      var inner := r.items[s];
      r := Put(r, s, Add(inner, teams[j], 1));
      j := j + 1;
    }
    assert teams[..j] == teams;
  }

  /** The nested dict after the credits of rows read with f, or the exception
      reading the rows raises. */
  function TallyRows<B>(rows: seq<Record>, f: Record -> Result<Option<B>>, credit: B -> Credit): Result<Nested> {
    match Collect(rows, f)
    case Err(e) => Err(e)
    case Ok(bs) => Ok(Tally(Image(bs, credit)))
  }

  /** d after the loop has consumed the rows r holds, or r's error. */
  function TallyRest<B>(d: Nested, r: Result<seq<B>>, credit: B -> Credit): Result<Nested>
    requires ValidNested(d)
  {
    match r
    case Err(e) => Err(e)
    case Ok(bs) => Ok(TallyFrom(d, Image(bs, credit)))
  }

  /** The row loop shared by the two-level counts. */
  method TallyRowsLoop<B>(rows: seq<Record>, f: Record -> Result<Option<B>>, credit: B -> Credit) returns (r: Result<Nested>)
    ensures r == TallyRows(rows, f, credit)
    ensures r.Ok? ==> ValidNested(r.value)
  {
    var d: Nested := Empty();
    assert ValidNested(d);
    var i := 0;
    while i < |rows|
      invariant 0 <= i <= |rows| && ValidNested(d)
      invariant TallyRows(rows, f, credit) == TallyRest(d, Collect(rows[i..], f), credit)
    {
      assert rows[i..][0] == rows[i] && rows[i..][1..] == rows[i + 1..];
      var step := f(rows[i]);
      if step.Err? {
        return Err(step.error);
      }
      if step.value.Some? {
        var b := step.value.value;
        if Collect(rows[i + 1..], f).Ok? {
          var bs := Collect(rows[i + 1..], f).value;
          assert Image([b] + bs, credit) == [credit(b)] + Image(bs, credit);
        }
        d := CreditLoop(d, credit(b).0, credit(b).1);
      }
      i := i + 1;
    }
    return Ok(d);
  }

  // ---------------------------------------------------------------------------
  // What the nested dict holds

  lemma {:induction false} TallyFromAt(d: Nested, cs: seq<Credit>, s: int)
    requires ValidNested(d)
    ensures Inner(TallyFrom(d, cs), s) == AccumulateFrom(Inner(d, s), Units(TeamsIn(cs, s)))
    decreases |cs|
  {
    if cs == [] {
      assert Units<string>([]) == [];
    } else {
      var d' := CreditOne(d, cs[0]);
      TallyFromAt(d', cs[1..], s);
      var here := if cs[0].0 == s then cs[0].1 else [];
      assert TeamsIn(cs, s) == here + TeamsIn(cs[1..], s);
      UnitsAppend(here, TeamsIn(cs[1..], s));
      AccumulateFromAppend(Inner(d, s), Units(here), Units(TeamsIn(cs[1..], s)));
      if cs[0].0 == s {
        assert Inner(d', s) == AccumulateFrom(Inner(d, s), Units(here));
      } else {
        assert Units(here) == [];
        assert Inner(d', s) == Inner(d, s);
      }
    }
  }

  lemma CreditOneSeasons(d: Nested, c: Credit, s: int)
    requires ValidNested(d)
    ensures s in CreditOne(d, c).items <==> s in d.items || s == c.0
  {
  }

  lemma {:induction false} TallyFromSeasons(d: Nested, cs: seq<Credit>, s: int)
    requires ValidNested(d)
    ensures s in TallyFrom(d, cs).items <==> s in d.items || s in SeasonsOf(cs)
    decreases |cs|
  {
    if cs != [] {
      var d' := CreditOne(d, cs[0]);
      assert s in d'.items <==> s in d.items || s == cs[0].0 by {
        CreditOneSeasons(d, cs[0], s);
      }
      assert s in SeasonsOf(cs) <==> s == cs[0].0 || s in SeasonsOf(cs[1..]) by {
        assert SeasonsOf(cs) == [cs[0].0] + SeasonsOf(cs[1..]);
      }
      TallyFromSeasons(d', cs[1..], s);
    }
  }

  lemma {:induction false} TallyFromKeys(d: Nested, cs: seq<Credit>)
    requires ValidNested(d)
    ensures TallyFrom(d, cs).keys == DedupFrom(d.keys, SeasonsOf(cs))
    decreases |cs|
  {
    if cs != [] {
      assert SeasonsOf(cs) == [cs[0].0] + SeasonsOf(cs[1..]);
      TallyFromKeys(CreditOne(d, cs[0]), cs[1..]);
    }
  }

  /** The seasons of the nested count are exactly those credited. */
  lemma TallySeasons(cs: seq<Credit>, s: int)
    ensures s in Tally(cs).items <==> s in SeasonsOf(cs)
  {
    var e: Nested := Empty();
    assert ValidNested(e);
    TallyFromSeasons(e, cs, s);
  }

  /** The teams of season s are exactly those credited in s. */
  lemma TallyTeams(cs: seq<Credit>, s: int, t: string)
    ensures t in Inner(Tally(cs), s).items <==> t in TeamsIn(cs, s)
  {
    var e: Nested := Empty();
    assert ValidNested(e);
    TallyFromAt(e, cs, s);
    CountAt(TeamsIn(cs, s), t);
  }

  /** The nested count, season by season: the seasons are exactly those
      credited, in first-seen order; the count of team t in season s is how
      often t is credited in s; the teams of s are exactly those credited in
      s, each at least once; and the counts of s add up to the number of
      credits in s. */
  lemma TallyAt(cs: seq<Credit>, s: int, t: string)
    ensures s in Tally(cs).items <==> s in SeasonsOf(cs)
    ensures Tally(cs).keys == Dedup(SeasonsOf(cs))
    ensures Get(Inner(Tally(cs), s), t, 0) == multiset(TeamsIn(cs, s))[t]
    ensures t in Inner(Tally(cs), s).items <==> t in TeamsIn(cs, s)
    ensures t in Inner(Tally(cs), s).items ==> Inner(Tally(cs), s).items[t] >= 1
    ensures Total(Inner(Tally(cs), s)) == |TeamsIn(cs, s)|
  {
    var e: Nested := Empty();
    assert ValidNested(e);
    TallyFromAt(e, cs, s);
    TallyFromSeasons(e, cs, s);
    TallyFromKeys(e, cs);
    CountAt(TeamsIn(cs, s), t);
  }

  // ---------------------------------------------------------------------------
  // Matches played: both teams of a match are credited.

  function Played(m: Match): Credit {
    (m.season, [m.team1, m.team2])
  }

  /** How many of the matches are of season s. */
  function SeasonMatches(ms: seq<Match>, s: int): nat {
    if ms == [] then 0 else (if ms[0].season == s then 1 else 0) + SeasonMatches(ms[1..], s)
  }

  /** How many matches of season s have t as team1, plus how many have t as
      team2 (a team playing itself counts twice). */
  function Appearances(ms: seq<Match>, s: int, t: string): nat {
    if ms == [] then 0
    else
      var here := (if ms[0].team1 == t then 1 else 0) + (if ms[0].team2 == t then 1 else 0);
      (if ms[0].season == s then here else 0) + Appearances(ms[1..], s, t)
  }

  lemma {:induction false} PlayedTeams(ms: seq<Match>, s: int, t: string)
    ensures multiset(TeamsIn(Image(ms, Played), s))[t] == Appearances(ms, s, t)
    ensures |TeamsIn(Image(ms, Played), s)| == 2 * SeasonMatches(ms, s)
  {
    if ms != [] {
      var cs := Image(ms, Played);
      assert cs[1..] == Image(ms[1..], Played);
      var here := if ms[0].season == s then [ms[0].team1, ms[0].team2] else [];
      assert TeamsIn(cs, s) == here + TeamsIn(cs[1..], s);
      PlayedTeams(ms[1..], s, t);
    }
  }

  lemma {:induction false} PlayedMember(ms: seq<Match>, s: int, t: string)
    ensures t in TeamsIn(Image(ms, Played), s) <==>
      exists i :: 0 <= i < |ms| && ms[i].season == s && (ms[i].team1 == t || ms[i].team2 == t)
  {
    if ms != [] {
      var cs := Image(ms, Played);
      assert cs[1..] == Image(ms[1..], Played);
      var here := if ms[0].season == s then [ms[0].team1, ms[0].team2] else [];
      assert TeamsIn(cs, s) == here + TeamsIn(cs[1..], s);
      PlayedMember(ms[1..], s, t);
      if exists i :: 0 <= i < |ms| && ms[i].season == s && (ms[i].team1 == t || ms[i].team2 == t) {
        var i :| 0 <= i < |ms| && ms[i].season == s && (ms[i].team1 == t || ms[i].team2 == t);
        if i > 0 {
          assert ms[1..][i - 1] == ms[i];
        }
      }
      if exists i :: 0 <= i < |ms[1..]| && ms[1..][i].season == s && (ms[1..][i].team1 == t || ms[1..][i].team2 == t) {
        var i :| 0 <= i < |ms[1..]| && ms[1..][i].season == s && (ms[1..][i].team1 == t || ms[1..][i].team2 == t);
        assert ms[i + 1] == ms[1..][i];
      }
    }
  }

  lemma SeasonsOfPlayed(ms: seq<Match>, s: int)
    ensures s in SeasonsOf(Image(ms, Played)) <==> exists i :: 0 <= i < |ms| && ms[i].season == s
  {
    if exists i :: 0 <= i < |ms| && ms[i].season == s {
      var i :| 0 <= i < |ms| && ms[i].season == s;
      assert SeasonsOf(Image(ms, Played))[i] == s;
    }
  }

  /** Matches played per season and team: every season of a match is a key;
      the count of t in s is t's appearances as team1 plus as team2 in the
      matches of s; the teams of s are exactly those appearing in s, each at
      least once; a season's counts add up to twice its number of matches. */
  lemma MatchesPlayedAt(ms: seq<Match>, s: int, t: string)
    ensures s in Tally(Image(ms, Played)).items <==> exists i :: 0 <= i < |ms| && ms[i].season == s
    ensures Get(Inner(Tally(Image(ms, Played)), s), t, 0) == Appearances(ms, s, t)
    ensures t in Inner(Tally(Image(ms, Played)), s).items <==>
      exists i :: 0 <= i < |ms| && ms[i].season == s && (ms[i].team1 == t || ms[i].team2 == t)
    ensures t in Inner(Tally(Image(ms, Played)), s).items ==> Inner(Tally(Image(ms, Played)), s).items[t] >= 1
    ensures Total(Inner(Tally(Image(ms, Played)), s)) == 2 * SeasonMatches(ms, s)
  {
    TallyAt(Image(ms, Played), s, t);
    PlayedTeams(ms, s, t);
    PlayedMember(ms, s, t);
    SeasonsOfPlayed(ms, s);
  }

  /** load_matches of the matches-played script: int(season) first, then team1
      and team2, as the dict literal lists them. */
  function MatchOf(row: Record): Result<Option<Match>> {
    var text :- Field(row, "season");
    var season :- ParseInt(text);
    var team1 :- Field(row, "team1");
    var team2 :- Field(row, "team2");
    Ok(Some(Match(season, team1, team2)))
  }

  /** A completed loading loop holds one match per row, read from that row. */
  lemma LoadedMatches(rows: seq<Record>)
    requires Collect(rows, MatchOf).Ok?
    ensures |Collect(rows, MatchOf).value| == |rows|
    ensures forall i :: 0 <= i < |rows| ==>
      var m := Collect(rows, MatchOf).value[i];
      && Field(rows[i], "season").Ok? && ParseInt(rows[i]["season"]) == Ok(m.season)
      && Field(rows[i], "team1") == Ok(m.team1) && Field(rows[i], "team2") == Ok(m.team2)
  {
    forall i | 0 <= i < |rows| ensures MatchOf(rows[i]).Ok? ==> MatchOf(rows[i]).value.Some? {
      MatchOfKeeps(rows[i]);
    }
    CollectMap(rows, MatchOf);
    forall i | 0 <= i < |rows|
      ensures var m := Collect(rows, MatchOf).value[i];
        && Field(rows[i], "season").Ok? && ParseInt(rows[i]["season"]) == Ok(m.season)
        && Field(rows[i], "team1") == Ok(m.team1) && Field(rows[i], "team2") == Ok(m.team2)
    {
      MatchOfOk(rows[i], Collect(rows, MatchOf).value[i]);
    }
  }

  lemma MatchOfKeeps(row: Record)
    ensures MatchOf(row).Ok? ==> MatchOf(row).value.Some?
  {
  }

  lemma MatchOfOk(row: Record, m: Match)
    requires MatchOf(row) == Ok(Some(m))
    ensures Field(row, "season").Ok? && ParseInt(row["season"]) == Ok(m.season)
    ensures Field(row, "team1") == Ok(m.team1) && Field(row, "team2") == Ok(m.team2)
  {
    var text := Field(row, "season");
    assert text.Ok?;
    var season := ParseInt(text.value);
    assert season.Ok?;
    assert Field(row, "team1").Ok? && Field(row, "team2").Ok?;
    assert MatchOf(row) == Ok(Some(Match(season.value, row["team1"], row["team2"])));
  }

  /** The loading loop: one match per row, or the first row's exception. */
  method LoadMatches(rows: seq<Record>) returns (r: Result<seq<Match>>)
    ensures r == Collect(rows, MatchOf)
    ensures r.Err? <==> exists i :: 0 <= i < |rows| && MatchOf(rows[i]).Err?
    ensures r.Ok? ==> |r.value| == |rows| && forall i :: 0 <= i < |rows| ==>
      && Field(rows[i], "season").Ok? && ParseInt(rows[i]["season"]) == Ok(r.value[i].season)
      && Field(rows[i], "team1") == Ok(r.value[i].team1) && Field(rows[i], "team2") == Ok(r.value[i].team2)
  {
    r := CollectLoop(rows, MatchOf);
    CollectErr(rows, MatchOf);
    if r.Ok? {
      LoadedMatches(rows);
    }
  }

  /** The tally of a nonempty sequence credits its first element and then the rest. */
  lemma TallyCreditsStep<B>(d: Nested, bs: seq<B>, credit: B -> Credit)
    requires ValidNested(d) && bs != []
    ensures TallyFrom(d, Image(bs, credit)) == TallyFrom(CreditOne(d, credit(bs[0])), Image(bs[1..], credit))
  {
    assert Image(bs, credit)[1..] == Image(bs[1..], credit);
  }

  /** calculate_matches_played over the loaded matches. */
  method CalculateMatchesPlayed(ms: seq<Match>) returns (d: Nested)
    ensures d == Tally(Image(ms, Played)) && ValidNested(d)
    ensures forall s :: s in d.items <==> exists i :: 0 <= i < |ms| && ms[i].season == s
    ensures forall s, t :: Get(Inner(d, s), t, 0) == Appearances(ms, s, t)
    ensures forall s :: Total(Inner(d, s)) == 2 * SeasonMatches(ms, s)
  {
    d := Empty();
    assert ValidNested(d);
    var i := 0;
    while i < |ms|
      invariant 0 <= i <= |ms| && ValidNested(d)
      invariant Tally(Image(ms, Played)) == TallyFrom(d, Image(ms[i..], Played))
    {
      TallyCreditsStep(d, ms[i..], Played);
      assert ms[i..][0] == ms[i] && ms[i..][1..] == ms[i + 1..];
      d := CreditLoop(d, ms[i].season, [ms[i].team1, ms[i].team2]);
      i := i + 1;
    }
    assert d == Tally(Image(ms, Played)) by {
      assert ms[i..] == [];
    }
    MatchesPlayed(ms);
  }

  /** MatchesPlayedAt for every season and team at once. */
  lemma MatchesPlayed(ms: seq<Match>)
    ensures var d := Tally(Image(ms, Played));
      forall s :: s in d.items <==> exists i :: 0 <= i < |ms| && ms[i].season == s
    ensures var d := Tally(Image(ms, Played));
      forall s, t :: Get(Inner(d, s), t, 0) == Appearances(ms, s, t)
    ensures var d := Tally(Image(ms, Played));
      forall s :: Total(Inner(d, s)) == 2 * SeasonMatches(ms, s)
  {
    var d := Tally(Image(ms, Played));
    forall s ensures (s in d.items <==> exists i :: 0 <= i < |ms| && ms[i].season == s)
      && Total(Inner(d, s)) == 2 * SeasonMatches(ms, s)
    {
      MatchesPlayedAt(ms, s, "");
    }
    forall s, t ensures Get(Inner(d, s), t, 0) == Appearances(ms, s, t) {
      MatchesPlayedAt(ms, s, t);
    }
  }

  /** The row reading of calculate_stacked: team1, then team2, then
      int(season). */
  function StackedMatchOf(row: Record): Result<Option<Match>> {
    var team1 :- Field(row, "team1");
    var team2 :- Field(row, "team2");
    var text :- Field(row, "season");
    var season :- ParseInt(text);
    Ok(Some(Match(season, team1, team2)))
  }

  /** calculate_stacked: the same two-level count read straight off the rows.
      It raises exactly when some row lacks team1, team2 or season or has a
      season that is not an integer; otherwise, over the matches the rows
      read as, the seasons are those of the matches, the count of t in s is
      t's appearances in the matches of s, and each season's counts add up
      to twice its number of matches. */
  method CalculateStacked(rows: seq<Record>) returns (r: Result<Nested>)
    ensures r == TallyRows(rows, StackedMatchOf, Played)
    ensures r.Err? <==> exists i :: 0 <= i < |rows| && StackedMatchOf(rows[i]).Err?
    ensures r.Ok? ==> ValidNested(r.value) && Collect(rows, StackedMatchOf).Ok?
    ensures r.Ok? ==> var ms := Collect(rows, StackedMatchOf).value;
      forall s :: s in r.value.items <==> exists i :: 0 <= i < |ms| && ms[i].season == s
    ensures r.Ok? ==> var ms := Collect(rows, StackedMatchOf).value;
      forall s, t :: Get(Inner(r.value, s), t, 0) == Appearances(ms, s, t)
    ensures r.Ok? ==> forall s :: Total(Inner(r.value, s)) == 2 * SeasonMatches(Collect(rows, StackedMatchOf).value, s)
  {
    r := TallyRowsLoop(rows, StackedMatchOf, Played);
    CollectErr(rows, StackedMatchOf);
    if r.Ok? {
      MatchesPlayed(Collect(rows, StackedMatchOf).value);
    }
  }

  // ---------------------------------------------------------------------------
  // Matches won: the winner is credited.

  function Won(w: (int, string)): Credit {
    (w.0, [w.1])
  }

  /** How many of the wins are of season s. */
  function SeasonWins(ws: seq<(int, string)>, s: int): nat {
    if ws == [] then 0 else (if ws[0].0 == s then 1 else 0) + SeasonWins(ws[1..], s)
  }

  lemma {:induction false} WonTeams(ws: seq<(int, string)>, s: int, t: string)
    ensures multiset(TeamsIn(Image(ws, Won), s))[t] == multiset(ws)[(s, t)]
    ensures |TeamsIn(Image(ws, Won), s)| == SeasonWins(ws, s)
  {
    if ws != [] {
      assert Image(ws, Won)[1..] == Image(ws[1..], Won);
      assert ws == [ws[0]] + ws[1..];
      WonTeams(ws[1..], s, t);
    }
  }

  /** Matches won per season and team, for rows read with f into (season,
      winner) pairs: the count of t in s is the number of rows f reads as
      (s, t), and a stored count is at least 1; the counts of a season add up
      to the number of its wins. */
  lemma WinsAt(rows: seq<Record>, f: Record -> Result<Option<(int, string)>>, s: int, t: string)
    requires Collect(rows, f).Ok?
    ensures Get(Inner(Tally(Image(Collect(rows, f).value, Won)), s), t, 0) == Hits(rows, f, (s, t))
    ensures t in Inner(Tally(Image(Collect(rows, f).value, Won)), s).items ==>
      Inner(Tally(Image(Collect(rows, f).value, Won)), s).items[t] >= 1
    ensures Total(Inner(Tally(Image(Collect(rows, f).value, Won)), s)) == SeasonWins(Collect(rows, f).value, s)
  {
    var ws := Collect(rows, f).value;
    TallyAt(Image(ws, Won), s, t);
    WonTeams(ws, s, t);
    CountHits(rows, f, (s, t));
  }

  /** The seasons of the matches-won dict are exactly those of some row f
      reads as a win. */
  lemma WonSeasons(ws: seq<(int, string)>, s: int)
    ensures s in SeasonsOf(Image(ws, Won)) <==> exists w :: (s, w) in ws
  {
    var cs := Image(ws, Won);
    if s in SeasonsOf(cs) {
      var k :| 0 <= k < |cs| && SeasonsOf(cs)[k] == s;
      assert ws[k] == (s, ws[k].1);
    }
    if exists w :: (s, w) in ws {
      var w :| (s, w) in ws;
      var k :| 0 <= k < |ws| && ws[k] == (s, w);
      assert SeasonsOf(cs)[k] == s;
    }
  }

  lemma WinSeasons(rows: seq<Record>, f: Record -> Result<Option<(int, string)>>, s: int)
    requires Collect(rows, f).Ok?
    ensures s in Tally(Image(Collect(rows, f).value, Won)).items <==>
      exists i, w :: 0 <= i < |rows| && f(rows[i]) == Ok(Some((s, w)))
  {
    var ws := Collect(rows, f).value;
    TallySeasons(Image(ws, Won), s);
    WonSeasons(ws, s);
    if exists w :: (s, w) in ws {
      var w :| (s, w) in ws;
      CollectMember(rows, f, (s, w));
    }
    if exists i, w :: 0 <= i < |rows| && f(rows[i]) == Ok(Some((s, w))) {
      var i, w :| 0 <= i < |rows| && f(rows[i]) == Ok(Some((s, w)));
      CollectMember(rows, f, (s, w));
    }
  }

  /** The matches-won loop of the optimized script: int(season) first, then
      the winner stripped; a row with an empty winner is skipped. */
  function WinOf(row: Record): (r: Result<Option<(int, string)>>)
    ensures r.Ok? && r.value.Some? ==> r.value.value.1 != [] && "winner" in row && r.value.value.1 == Strip(row["winner"])
  {
    var text :- Field(row, "season");
    var season :- ParseInt(text);
    var winner :- Field(row, "winner");
    var team := Strip(winner);
    if team == [] then Ok(None) else Ok(Some((season, team)))
  }

  /** A stripped winner is never empty, so no season counts a team "". */
  lemma NoEmptyWinner(rows: seq<Record>, s: int)
    requires Collect(rows, WinOf).Ok?
    ensures "" !in Inner(Tally(Image(Collect(rows, WinOf).value, Won)), s).items
  {
    var ws := Collect(rows, WinOf).value;
    TallyTeams(Image(ws, Won), s, "");
    WonTeams(ws, s, "");
    CollectMember(rows, WinOf, (s, ""));
    forall i | 0 <= i < |rows| ensures WinOf(rows[i]) != Ok(Some((s, ""))) {
      var r := WinOf(rows[i]);
    }
    assert (s, "") !in multiset(ws);
  }

  /** load_matches of the matches-won script: the count of t in s is the number
      of rows of season s whose stripped winner is t; a season is a key only
      when some row of it has a non-empty winner; no team is empty. A row
      whose season is not an integer raises even when its winner is empty. */
  method LoadMatchesWon(rows: seq<Record>) returns (r: Result<Nested>)
    ensures r == TallyRows(rows, WinOf, Won)
    ensures r.Err? <==> exists i :: 0 <= i < |rows| && WinOf(rows[i]).Err?
    ensures r.Ok? ==> ValidNested(r.value)
    ensures r.Ok? ==> forall s, t :: Get(Inner(r.value, s), t, 0) == Hits(rows, WinOf, (s, t))
    ensures r.Ok? ==> forall s :: s in r.value.items <==>
      exists i, w :: 0 <= i < |rows| && WinOf(rows[i]) == Ok(Some((s, w)))
    ensures r.Ok? ==> forall s :: "" !in Inner(r.value, s).items
  {
    r := TallyRowsLoop(rows, WinOf, Won);
    CollectErr(rows, WinOf);
    if r.Ok? {
      forall s, t ensures Get(Inner(r.value, s), t, 0) == Hits(rows, WinOf, (s, t)) {
        WinsAt(rows, WinOf, s, t);
      }
      forall s ensures s in r.value.items <==> exists i, w :: 0 <= i < |rows| && WinOf(rows[i]) == Ok(Some((s, w))) {
        WinSeasons(rows, WinOf, s);
      }
      forall s ensures "" !in Inner(r.value, s).items {
        NoEmptyWinner(rows, s);
      }
    }
  }

  /** The row reading of `calculations`: the winner first, then int(season);
      the winner is neither stripped nor filtered. */
  function RawWinOf(row: Record): Result<Option<(int, string)>> {
    var winner :- Field(row, "winner");
    var text :- Field(row, "season");
    var season :- ParseInt(text);
    Ok(Some((season, winner)))
  }

  /** `calculations`: every row is counted, an empty winner under "". */
  method Calculations(rows: seq<Record>) returns (r: Result<Nested>)
    ensures r == TallyRows(rows, RawWinOf, Won)
    ensures r.Err? <==> exists i :: 0 <= i < |rows| && RawWinOf(rows[i]).Err?
    ensures r.Ok? ==> ValidNested(r.value)
    ensures r.Ok? ==> forall s, t :: Get(Inner(r.value, s), t, 0) == Hits(rows, RawWinOf, (s, t))
    ensures r.Ok? ==> forall s :: s in r.value.items <==>
      exists i, w :: 0 <= i < |rows| && RawWinOf(rows[i]) == Ok(Some((s, w)))
  {
    r := TallyRowsLoop(rows, RawWinOf, Won);
    CollectErr(rows, RawWinOf);
    if r.Ok? {
      forall s, t ensures Get(Inner(r.value, s), t, 0) == Hits(rows, RawWinOf, (s, t)) {
        WinsAt(rows, RawWinOf, s, t);
      }
      forall s ensures s in r.value.items <==> exists i, w :: 0 <= i < |rows| && RawWinOf(rows[i]) == Ok(Some((s, w))) {
        WinSeasons(rows, RawWinOf, s);
      }
    }
  }

  // ---------------------------------------------------------------------------
  // calcualte_stacked as written: every write in the team loop goes to team1.

  /** Every stored count is at least 1. */
  ghost predicate Positive(inner: Dict<string, int>) {
    forall u :: u in inner.items ==> inner.items[u] >= 1
  }

  /** One pass of the inner loop as written:
      `if team in inner: inner[team1] += 1 else: inner[team1] = 1`. The
      increment reads inner[team1], present whenever the pass is not the
      first (team1's own pass always leaves team1 in the dict). */
  function BuggyStep(inner: Dict<string, int>, team1: string, team: string): (r: Dict<string, int>)
    requires Valid(inner) && (team == team1 || team1 in inner.items)
    ensures Valid(r) && team1 in r.items
  {
    if team in inner.items then Put(inner, team1, inner.items[team1] + 1) else Put(inner, team1, 1)
  }

  /** The two passes, for team1 and then team2. */
  function BuggyPair(inner: Dict<string, int>, m: Match): (r: Dict<string, int>)
    requires Valid(inner)
    ensures Valid(r)
  {
    BuggyStep(BuggyStep(inner, m.team1, m.team1), m.team1, m.team2)
  }

  function BuggyCredit(d: Nested, m: Match): (r: Nested)
    requires ValidNested(d)
    ensures ValidNested(r)
  {
    Put(d, m.season, BuggyPair(Inner(d, m.season), m))
  }

  function BuggyTallyFrom(d: Nested, ms: seq<Match>): (r: Nested)
    requires ValidNested(d)
    ensures ValidNested(r)
    decreases |ms|
  {
    if ms == [] then d else BuggyTallyFrom(BuggyCredit(d, ms[0]), ms[1..])
  }

  function BuggyTally(ms: seq<Match>): Nested {
    assert ValidNested(Empty<int, Dict<string, int>>());
    BuggyTallyFrom(Empty(), ms)
  }

  function BuggyRest(d: Nested, r: Result<seq<Match>>): Result<Nested>
    requires ValidNested(d)
  {
    match r
    case Err(e) => Err(e)
    case Ok(ms) => Ok(BuggyTallyFrom(d, ms))
  }

  /** The inner loop as written, for one match. */
  method BuggyCreditLoop(d: Nested, m: Match) returns (r: Nested)
    requires ValidNested(d)
    ensures r == BuggyCredit(d, m) && ValidNested(r)
  {
    var start := Inner(d, m.season);
    var inner := start;
    var teams := [m.team1, m.team2];
    var j := 0;
    while j < |teams|
      invariant 0 <= j <= 2 && Valid(inner)
      invariant inner == if j == 0 then start else if j == 1 then BuggyStep(start, m.team1, m.team1) else BuggyPair(start, m)
    {
      if teams[j] in inner.items {
        inner := Put(inner, m.team1, inner.items[m.team1] + 1);
      } else {
        inner := Put(inner, m.team1, 1);
      }
      j := j + 1;
    }
    r := Put(d, m.season, inner);
  }

  /** calcualte_stacked exactly as written, over the same row reading as
      calculate_stacked. */
  method CalcualteStackedAsWritten(rows: seq<Record>) returns (r: Result<Nested>)
    ensures r == BuggyRest(Empty(), Collect(rows, StackedMatchOf))
    ensures r.Ok? ==> ValidNested(r.value)
  {
    var d: Nested := Empty();
    assert ValidNested(d);
    var i := 0;
    while i < |rows|
      invariant 0 <= i <= |rows| && ValidNested(d)
      invariant BuggyRest(Empty(), Collect(rows, StackedMatchOf)) == BuggyRest(d, Collect(rows[i..], StackedMatchOf))
    {
      assert rows[i..][0] == rows[i] && rows[i..][1..] == rows[i + 1..];
      var step := StackedMatchOf(rows[i]);
      if step.Err? {
        return Err(step.error);
      }
      if step.value.Some? {
        d := BuggyCreditLoop(d, step.value.value);
      }
      i := i + 1;
    }
    return Ok(d);
  }

  /** The two passes write only team1's entry, and keep counts at least 1. */
  lemma BuggyPairFacts(inner: Dict<string, int>, m: Match)
    requires Valid(inner)
    ensures forall u :: u in BuggyPair(inner, m).items <==> u in inner.items || u == m.team1
    ensures Positive(inner) ==> Positive(BuggyPair(inner, m))
  {
  }

  lemma {:induction false} BuggySeasons(d: Nested, ms: seq<Match>, s: int)
    requires ValidNested(d)
    ensures s in BuggyTallyFrom(d, ms).items <==> s in d.items || exists i :: 0 <= i < |ms| && ms[i].season == s
    decreases |ms|
  {
    if ms != [] {
      BuggySeasons(BuggyCredit(d, ms[0]), ms[1..], s);
      if exists i :: 0 <= i < |ms[1..]| && ms[1..][i].season == s {
        var i :| 0 <= i < |ms[1..]| && ms[1..][i].season == s;
        assert ms[i + 1] == ms[1..][i];
      }
      if exists i :: 0 <= i < |ms| && ms[i].season == s {
        var i :| 0 <= i < |ms| && ms[i].season == s;
        if i > 0 {
          assert ms[1..][i - 1] == ms[i];
        }
      }
    }
  }

  /** One credit as written adds at most the match's team1, and only to its season. */
  lemma BuggyCreditTeams(d: Nested, m: Match, s: int, t: string)
    requires ValidNested(d)
    ensures t in Inner(BuggyCredit(d, m), s).items ==> t in Inner(d, s).items || (m.season == s && m.team1 == t)
  {
    BuggyPairFacts(Inner(d, m.season), m);
    if s != m.season {
      assert Inner(BuggyCredit(d, m), s) == Inner(d, s);
    }
  }

  lemma {:induction false} BuggyTeams(d: Nested, ms: seq<Match>, s: int, t: string)
    requires ValidNested(d)
    ensures t in Inner(BuggyTallyFrom(d, ms), s).items ==>
      t in Inner(d, s).items || exists i :: 0 <= i < |ms| && ms[i].season == s && ms[i].team1 == t
    decreases |ms|
  {
    if ms != [] {
      var d' := BuggyCredit(d, ms[0]);
      BuggyCreditTeams(d, ms[0], s, t);
      BuggyTeams(d', ms[1..], s, t);
      if exists i :: 0 <= i < |ms[1..]| && ms[1..][i].season == s && ms[1..][i].team1 == t {
        var i :| 0 <= i < |ms[1..]| && ms[1..][i].season == s && ms[1..][i].team1 == t;
        assert ms[i + 1] == ms[1..][i];
      }
    }
  }

  lemma {:induction false} BuggyPositive(d: Nested, ms: seq<Match>, s: int)
    requires ValidNested(d) && forall u :: u in d.items ==> Positive(d.items[u])
    ensures Positive(Inner(BuggyTallyFrom(d, ms), s))
    decreases |ms|
  {
    if ms != [] {
      var d' := BuggyCredit(d, ms[0]);
      BuggyPairFacts(Inner(d, ms[0].season), ms[0]);
      assert Positive(Inner(d, ms[0].season));
      BuggyPositive(d', ms[1..], s);
    }
  }

  /** What the code as written still guarantees: every season of a match is a
      key, every inner key is the team1 of some match of that season, and every
      stored count is at least 1. A team that only ever appears as team2 is
      never counted. */
  lemma BuggyTallyAt(ms: seq<Match>, s: int, t: string)
    ensures s in BuggyTally(ms).items <==> exists i :: 0 <= i < |ms| && ms[i].season == s
    ensures t in Inner(BuggyTally(ms), s).items ==> exists i :: 0 <= i < |ms| && ms[i].season == s && ms[i].team1 == t
    ensures t in Inner(BuggyTally(ms), s).items ==> Inner(BuggyTally(ms), s).items[t] >= 1
  {
    var e: Nested := Empty();
    assert ValidNested(e);
    BuggySeasons(e, ms, s);
    BuggyTeams(e, ms, s, t);
    BuggyPositive(e, ms, s);
  }

  /** The row {team1: "A", team2: "B", season: "2008"} reads as that match. */
  lemma SampleRow()
    ensures StackedMatchOf(map["team1" := "A", "team2" := "B", "season" := "2008"]) == Ok(Some(Match(2008, "A", "B")))
  {
    var row := map["team1" := "A", "team2" := "B", "season" := "2008"];
    assert Field(row, "team1") == Ok("A") && Field(row, "team2") == Ok("B") && Field(row, "season") == Ok("2008");
    ParseInt2008();
  }

  lemma ParseInt2008()
    ensures ParseInt("2008") == Ok(2008)
  {
    var t := "2008";
    assert t[0] == '2' && t[1] == '0' && t[2] == '0' && t[3] == '8';
    assert Strip(t) == t by {
      StripTrimmed(t);
    }
    assert IsDigitRun(t) by {
      forall i | 0 <= i < |t| ensures IsDigit(t[i]) { }
    }
    assert DigitsValue(t) == 2008 by {
      assert t[..3] == "200" && t[..2] == "20" && t[..1] == "2";
      assert DigitsValue("2") == 2;
      assert DigitsValue("20") == 20;
      assert DigitsValue("200") == 200;
    }
  }

  /** One match of "A" against "B" in 2008: the code as written counts only
      {"A": 1} for 2008. */
  lemma BuggyDropsTeam2()
    ensures Inner(BuggyTally([Match(2008, "A", "B")]), 2008).items == map["A" := 1]
  {
    var e: Nested := Empty();
    assert ValidNested(e);
    var ms := [Match(2008, "A", "B")];
    assert ms[1..] == [];
    assert BuggyPair(Empty(), ms[0]).items == map["A" := 1];
  }

  /** The same match in the matches-played count gives {"A": 1, "B": 1}. */
  lemma PlayedKeepsTeam2()
    ensures Inner(Tally(Image([Match(2008, "A", "B")], Played)), 2008).items == map["A" := 1, "B" := 1]
  {
    var e: Nested := Empty();
    assert ValidNested(e);
    var cs := Image([Match(2008, "A", "B")], Played);
    assert cs == [(2008, ["A", "B"])];
    assert cs[1..] == [];
    var ps := Units(["A", "B"]);
    assert ps == [("A", 1), ("B", 1)];
    var a := Add(Empty(), "A", 1);
    assert a.items == map["A" := 1];
    assert ps[1..] == [("B", 1)];
    assert AccumulateFrom(Empty(), ps) == AccumulateFrom(a, [("B", 1)]);
    assert AccumulateFrom(a, [("B", 1)]) == Add(a, "B", 1);
    assert Add(a, "B", 1).items == map["A" := 1, "B" := 1];
    var c := CreditOne(e, cs[0]);
    assert TallyFrom(e, cs) == TallyFrom(c, cs[1..]);
    assert TallyFrom(c, []) == c;
    assert Tally(cs) == c;
  }
}
