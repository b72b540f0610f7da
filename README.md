# IPL plotting scripts: the aggregation kernels, modelled in Dafny

The IPL data-analytics scripts read match, delivery and umpire CSV data and
each draws one chart: matches per season, runs per team, foreign umpires by
country, extra runs conceded per team in 2016, the ten most economical bowlers
of 2015, the ten best Royal Challengers Bangalore batsmen, and two stacked bar
charts (matches played and matches won per team and season). Most charts come
in two or three script variants: the `plotting-logic-code/` scripts read with
`csv.DictReader`, the underscore-named `plotting-logic/` scripts read with a
hand-written `read_data`, and the hyphen-named `plotting-logic/` scripts use
their own loops. This project models every variant's loading and aggregation
code and the data each plotting function hands to matplotlib.

How the Python is rendered:

- A row is a `Record`, a map from column name to text. A Python dict whose key
  order matters is a `Dict`: its keys in insertion order beside a map
  (`dicts.dfy`). A nested season-to-team dict is a `Nested`.
- An exception (`KeyError` for a missing column, `ValueError` from `int()`,
  `IndexError` from a short CSV line, `ZeroDivisionError`) is an `Err` value.
  The first row that raises decides the error (`Builtins.Collect`).
- Python's `int()` on text (`Builtins.ParseInt`), `str.strip`, `str.split`,
  `str.lower`, text-mode newline handling and the stable `sorted` are written
  out in `builtins.dfy`, `naive_csv.dfy` and `sorting.dfy`.
- File and directory contents are parameters: a file is its text, and a
  directory is its listing as a sequence of (name, content) pairs. The
  `DictReader` scripts receive their rows as records.
- Each row loop is a `method` with a `while` loop. It is proved equal to a
  function of its input, and the lemmas beside that function state what the
  loop computes.

Behaviour of the code worth knowing:

- The hyphen-named batsman script sorts `(runs, batsman)` tuples in reverse,
  so batsmen with equal runs come in descending name order
  (`TopBatsmen.TupleTopTenOrder`). The other batsman scripts sort by runs
  alone, stably, so equal runs keep first-seen order (`TopBatsmen.RankingFacts`).
- An economy divides by `balls / 6` for every bowler that passes the filter;
  no bowler is set aside for having no legal ball. With the default minimum
  of 12 legal balls, or the `> 0` filter, that never divides by zero. With a
  minimum of 0 or less it raises ZeroDivisionError (`Economy.EconomiesAt`).
- Every ranking keeps the first ten entries of the sorted list, or all of
  them when there are fewer; the length ten is fixed in the code.
- Directory entries are read in the order the listing gives them, which the
  model takes as given.

## Model

| member | source | states |
|---|---|---|
| Builtins.StripTrimmed | plotting-logic-code/umpire_country_plot.py:19-20 | text with no whitespace at either end is its own `strip()`, so stripping a stripped country or winner changes nothing |
| Builtins.StripInfix | plotting-logic-code/matches_won_byteam_plot.py:24 | stripping removes only leading and trailing whitespace: the text between them is kept unchanged |
| Builtins.Split | plotting-logic/stacked_bar_chart_plot.py:18-20 | `split(',')` yields at least one field, and no field contains a comma |
| Builtins.JoinSplit | plotting-logic/stacked_bar_chart_plot.py:20 | splitting on a separator loses nothing: joining the fields gives the line back |
| Builtins.SplitJoin | plotting-logic/stacked_bar_chart_plot.py:20 | splitting the join of comma-free fields gives back exactly those fields |
| Builtins.ParseIntDecimal | plotting-logic-code/total_matches_year_plot.py:22 | `int(str(n)) == n` for every integer, negative ones included |
| Builtins.ParseIntOfRun | plotting-logic-code/team_run_plot.py:24 | `int()` of a run of decimal digits is the value those digits spell |
| Builtins.ParseIntOfNegativeRun | plotting-logic-code/most_economical_bowler_plot.py:39 | `int()` of a minus sign followed by digits is the negated value |
| Builtins.CollectLoop | plotting-logic/team-run-plot.py:23-29 | a row loop that appends what each row gives ends as the row-loop function says: the first row that raises stops it |
| Builtins.CollectErr | plotting-logic/team-run-plot.py:25 | a row loop raises exactly when some row raises, and then with the first such row's exception, every earlier row having gone through |
| Builtins.CollectMember | plotting-logic-code/most_economical_bowler_plot.py:22-24 | a completed row loop holds exactly the values some row gives |
| Builtins.CollectSkip | plotting-logic-code/umpire_country_plot.py:21-22 | a row the loop skips with `continue` changes nothing |
| Dicts.AccumulateAt | plotting-logic-code/team_run_plot.py:32-34 | after `d[k] = d.get(k, 0) + v` over pairs, `d.get(k, 0)` is the sum of the values paired with k, and k is a key exactly when some pair has it |
| Dicts.AccumulateKeys | plotting-logic-code/team_run_plot.py:32-34 | the keys of that dict are exactly the keys of the pairs, in first-seen order, each once |
| Dicts.AccumulateTotal | plotting-logic-code/team_run_plot.py:32-34 | the values of that dict add up to the sum of all the pairs' values |
| Dicts.FromPairsWithin | plotting-logic-code/top_10_rcb_batsman_plot.py:42 | `dict(pairs)` over distinct keys keeps the pairs' order, and each value is the one the source dict holds |
| Dicts.PutAllLast | plotting-logic-code/extra_run_conceded_per_team_plot.py:23-24 | after assigning every pair, a key maps to the value of its last pair |
| Sorting.SortSorted | plotting-logic-code/most_economical_bowler_plot.py:57 | `sorted` with a key gives a sequence ordered by that key |
| Sorting.SortStable | plotting-logic-code/top_10_rcb_batsman_plot.py:41 | `sorted` is stable: the elements that tie with any c keep their input order |
| Sorting.SortTake | plotting-logic-code/most_economical_bowler_plot.py:57 | `sorted(...)[:n]` keeps min(n, length) elements in order, none ranked after an element left out, and the kept and dropped elements together are a permutation of the input |
| Sorting.SortedInts | plotting-logic-code/total_matches_year_plot.py:37 | `sorted(keys)` over distinct int keys is a permutation of them with every key once, strictly ascending; the season axes of the season-count and stacked charts both use it |
| NaiveCsv.Universal | plotting-logic/stacked_bar_chart_plot.py:16 | text mode with universal newlines leaves no carriage return, and empty text stays empty |
| NaiveCsv.SplitLines | plotting-logic/stacked_bar_chart_plot.py:17 | `readlines()` yields non-empty lines, each ending at its only newline, except that the last may lack one |
| NaiveCsv.SplitLinesConcat | plotting-logic/stacked_bar_chart_plot.py:17 | the lines concatenate back to the text |
| NaiveCsv.RowOfFields | plotting-logic/stacked_bar_chart_plot.py:21 | a row has exactly the header columns, the field of the last of two equal headers, and a line shorter than the header raises IndexError |
| NaiveCsv.RowsOfLines | plotting-logic/stacked_bar_chart_plot.py:17-22 | the header line and the loop over the data lines give the rows of those lines, or the first IndexError |
| NaiveCsv.ReadFile | plotting-logic/stacked_bar_chart_plot.py:16-22 | the body of the `with open` block gives the file's rows |
| NaiveCsv.ReadData | plotting-logic/stacked_bar_chart_plot.py:10-23 | `read_data` gives the rows of every `.csv` entry, in listing order, or the first error; the same code is also at plotting-logic/stacked-bar-chart-plot.py:4-18, plotting-logic/extra-run-conceded-perteam-plot.py:5-19 |
| NaiveCsv.LinesRowsErr | plotting-logic/stacked_bar_chart_plot.py:18-21 | reading lines fails exactly when there is no header line or some data line has fewer fields than headers, and then with IndexError |
| NaiveCsv.FileRowsErr | plotting-logic/stacked_bar_chart_plot.py:17-21 | an empty file raises IndexError at `lines[0]`; a file fails exactly when it is empty or has a short data line |
| NaiveCsv.FileRowsOk | plotting-logic/stacked_bar_chart_plot.py:19-22 | a file that reads gives one row per data line, in order, each built from the header fields and that line's fields |
| NaiveCsv.CsvFiles | plotting-logic/stacked_bar_chart_plot.py:13-14 | the selected entries are entries of the listing, and every one of them ends in `.csv` |
| NaiveCsv.ReadDataCsvOnly | plotting-logic/stacked_bar_chart_plot.py:14 | entries whose names do not end in `.csv` contribute nothing |
| NaiveCsv.ReadDataCount | plotting-logic/stacked_bar_chart_plot.py:13-22 | `read_data` yields as many rows as there are data lines across the `.csv` entries |
| GroupBy.GroupSumLoop | plotting-logic/team-run-plot.py:22-30 | the set-or-increment loop over rows ends as the group-sum function says |
| GroupBy.GroupSumAt | plotting-logic/team-run-plot.py:22-30 | the value under k is the sum of the amounts rows give under k; k is a key exactly when some row gives it; keys are in first-seen order; the values add up to all the amounts |
| GroupBy.GroupSumErr | plotting-logic/team-run-plot.py:24-25 | the loop raises exactly when some row raises, with the first such row's exception |
| GroupBy.GroupSumSkip | plotting-logic-code/extra_run_conceded_per_team_plot.py:37-38 | a skipped row changes nothing |
| GroupBy.GroupCount | plotting-logic/total_matches_year_plot.py:29-31 | a counting loop is the count of the keys the rows give, or the error reading them |
| GroupBy.GroupCountAt | plotting-logic/total_matches_year_plot.py:29-31 | the count under k is the number of rows giving k; k is a key exactly when some row gives it; every count is at least 1; the counts add up to the rows kept |
| SeasonTotals.SeasonRow | plotting-logic-code/total_matches_year_plot.py:22 | one row gives its parsed season, or KeyError for a missing column, or ValueError for a non-integer |
| SeasonTotals.LoadMatches | plotting-logic-code/total_matches_year_plot.py:13-23 | one season per row, in order, each the integer its text spells; raises exactly when some row has a missing or non-integer season, with the first such row's error |
| SeasonTotals.CountMatches | plotting-logic-code/total_matches_year_plot.py:26-32 | each season's count is its number of occurrences; exactly the occurring seasons are keys, in first-seen order; the counts add up to the number of matches |
| SeasonTotals.MatchesPerSeason | plotting-logic/total_matches_year_plot.py:26-32 | the one-pass count over row dicts equals loading the seasons then counting them, and totals the number of rows |
| SeasonTotals.CheckingIdRow | plotting-logic/total-matches-year-plot.py:23-24 | the reader that also parses `id` fails exactly on the rows it rejects, and otherwise reads the same season |
| SeasonTotals.CountMatchesCheckingIds | plotting-logic/total-matches-year-plot.py:20-29 | raises exactly when some row lacks a season or id or has a non-integer one, although the id is never used; otherwise it is the plain per-season count, every count at least 1 |
| SeasonTotals.SeasonBars | plotting-logic-code/total_matches_year_plot.py:37-38 | the bars are every season once, strictly ascending, each with its own count; the same code is also at plotting-logic/total_matches_year_plot.py:41-42, plotting-logic/total-matches-year-plot.py:36-37 |
| MatchIds.SeasonIds | plotting-logic-code/most_economical_bowler_plot.py:17-25 | an id is gathered exactly when some row has it and a season equal, as text, to the target; KeyError exactly when a row lacks the season, or matches and lacks the id; the same code is also at plotting-logic/most-economical-bowler-plot.py:22-25, plotting-logic/extra_run_conceded_per_team_plot.py:20-22, plotting-logic/extra-run-conceded-perteam-plot.py:22-25 |
| TeamRuns.LoadDeliveries | plotting-logic-code/team_run_plot.py:18-26 | one (team, runs) pair per row, in order, read from that row; raises exactly when some row lacks a column or has a non-integer `total_runs` |
| TeamRuns.CalculateTeamRuns | plotting-logic-code/team_run_plot.py:29-35 | each team's runs summed; exactly the batting teams are keys, in first-seen order; the values add up to all the runs |
| TeamRuns.CalculateRun | plotting-logic/team-run-plot.py:21-30 | the one-pass sum raises exactly when loading would and otherwise equals loading then summing |
| Umpires.ForeignCountry | plotting-logic-code/umpire_country_plot.py:19-22 | a counted country is stripped, non-empty and not India in any letter case, and its umpire name is non-empty |
| Umpires.CountNeverRaises | plotting-logic-code/umpire_country_plot.py:18-23 | the counting loop never raises, because a missing column reads as "" |
| Umpires.CountAtCountry | plotting-logic-code/umpire_country_plot.py:18-23 | the count under c is the number of rows counted under c; c is a key exactly when some row counts under it |
| Umpires.CountryKeyShape | plotting-logic-code/umpire_country_plot.py:20-21 | every key is a stripped, non-empty country other than India |
| Umpires.LoadUmpireCountries | plotting-logic-code/umpire_country_plot.py:10-24 | per-country counts of the counted rows; exactly their countries are keys, each counted at least once, in first-seen order; the counts add up to the counted rows; the same code is also at plotting-logic/umpire_country_plot.py:10-21 |
| Umpires.PlotUmpireCountries | plotting-logic-code/umpire_country_plot.py:27-37 | the no-data notice exactly when the dict is empty; otherwise one bar per country, in key order, as high as its count; the same code is also at plotting-logic/umpire_country_plot.py:24-31 |
| ExtraRuns.LoadMatchSeasons | plotting-logic-code/extra_run_conceded_per_team_plot.py:15-25 | KeyError exactly when a row lacks `season` or `id`; otherwise the keys are exactly the ids, and an id maps to the season of its last row |
| ExtraRuns.SeasonMapFacts | plotting-logic-code/extra_run_conceded_per_team_plot.py:23-24 | the same facts about the id-to-season function |
| ExtraRuns.SelectedMember | plotting-logic-code/extra_run_conceded_per_team_plot.py:35-38 | a delivery is summed exactly when it has a `match_id` whose match is counted |
| ExtraRuns.SelectedSame | plotting-logic-code/extra_run_conceded_per_team_plot.py:36-38 | summing over the counted deliveries alone gives the same result |
| ExtraRuns.ExtrasPerTeam | plotting-logic-code/extra_run_conceded_per_team_plot.py:34-42 | raises exactly on a missing `match_id`, or a counted delivery with a missing or non-integer field; otherwise per-team extras of the counted deliveries, first-seen keys, adding up to all counted extras |
| ExtraRuns.CalculateExtraRuns | plotting-logic-code/extra_run_conceded_per_team_plot.py:28-44 | a delivery counts exactly when the id-to-season dict maps its match to the target season; each team's value sums those deliveries' extras |
| ExtraRuns.CsvRowsLoop | plotting-logic/extra_run_conceded_per_team_plot.py:16-19 | the rows of the `.csv` entries of a folder, in listing order |
| ExtraRuns.CalculateExtraRunsInFolders | plotting-logic/extra_run_conceded_per_team_plot.py:13-34 | the 2016 ids of the match files, then the per-team sum over the delivery files; when a match row lacks `season` or `id`, that first row's KeyError is the one raised |
| ExtraRuns.CalculateFor2016 | plotting-logic/extra-run-conceded-perteam-plot.py:21-35 | the 2016 id list, then the per-team sum over deliveries whose `match_id` is in it |
| Economy.TallyBowlers | plotting-logic-code/most_economical_bowler_plot.py:32-48 | the delivery loop ends as the bowler-stats function says, or with the first error |
| Economy.AddBall | plotting-logic-code/most_economical_bowler_plot.py:44-48 | creating an entry at zero, then adding runs and the legal ball, is one credit |
| Economy.TallyStep | plotting-logic-code/most_economical_bowler_plot.py:34-48 | one delivery: it raises, is skipped, or credits its bowler, and the loop goes on with the rest |
| Economy.CreditSplits | plotting-logic-code/most_economical_bowler_plot.py:47-48 | a credit adds the delivery's runs to the runs dict and its legal ball to the balls dict |
| Economy.TallyAt | plotting-logic-code/most_economical_bowler_plot.py:44-48 | a bowler has an entry exactly when they bowled a ball; entries are in first-seen order; runs sum all their balls, and balls count their legal ones |
| Economy.SkippedDelivery | plotting-logic-code/most_economical_bowler_plot.py:35-36 | a delivery of a match outside the ids leaves the stats unchanged |
| Economy.Economy | plotting-logic-code/most_economical_bowler_plot.py:54 | the economy times the legal balls is six times the runs |
| Economy.EconomiesAt | plotting-logic-code/most_economical_bowler_plot.py:51-54 | raises ZeroDivisionError exactly when the minimum is at most 0 and some bowler has no legal ball; otherwise a bowler appears once, with their economy, exactly when they pass the filter |
| Economy.EconomyLoop | plotting-logic/most-economical-bowler-plot.py:40-45 | a bowler gets an economy exactly when they bowled a legal ball; it never divides by zero |
| Economy.TopTenFacts | plotting-logic-code/most_economical_bowler_plot.py:57 | min(10, n) entries in ascending economy, all from the input, none above an entry left out |
| Economy.TopTenStable | plotting-logic-code/most_economical_bowler_plot.py:57 | equal economies keep their input order, and no bowler is listed twice |
| Economy.CalculateTopEconomicalBowlers | plotting-logic-code/most_economical_bowler_plot.py:28-58 | the tally, filter, economy and ranking; at most ten distinct bowlers in ascending economy; with a positive minimum it raises only when the tally does |
| Economy.TopEconomicalBowlers | plotting-logic/most-economical-bowler-plot.py:21-47 | the 2015 id list, then the same pipeline with the `> 0` filter; at most ten distinct bowlers in ascending economy |
| TopBatsmen.LoadDeliveries | plotting-logic-code/top_10_rcb_batsman_plot.py:16-30 | each delivery of Royal Challengers Bangalore gives one (batsman, runs) pair, so each pair is kept as many times as deliveries give it, and no other pair is kept; raises exactly when a row lacks the team, or is the team's and lacks a field or has non-integer runs |
| TopBatsmen.LoadedPairs | plotting-logic-code/top_10_rcb_batsman_plot.py:24-29 | a pair is kept exactly when some delivery of the team has that batsman and those runs |
| TopBatsmen.LoadedPairCounts | plotting-logic-code/top_10_rcb_batsman_plot.py:24-29 | a pair is kept once for every delivery of the team giving it, and as many pairs are kept as the team has deliveries |
| TopBatsmen.RankingFacts | plotting-logic-code/top_10_rcb_batsman_plot.py:41-42 | up to ten distinct batsmen with their own totals, in descending runs, none below a batsman left out, and ties in first-seen order |
| TopBatsmen.TopTenFacts | plotting-logic-code/top_10_rcb_batsman_plot.py:42 | the dict holds min(10, n) batsmen in ranking order, each with their own total |
| TopBatsmen.TopTenOrder | plotting-logic-code/top_10_rcb_batsman_plot.py:41-42 | the dict's keys come in descending runs |
| TopBatsmen.TopTenOmitted | plotting-logic-code/top_10_rcb_batsman_plot.py:41-42 | no batsman kept has fewer runs than one left out |
| TopBatsmen.CalculateTop10Batsmen | plotting-logic-code/top_10_rcb_batsman_plot.py:33-43 | the top ten of the summed runs: each kept batsman's summed runs, none below a batsman left out |
| TopBatsmen.CalculateTop10BatsmenOfRows | plotting-logic/top_10_rcb_batsman_plot.py:26-37 | the one-pass sum and the same ranking; raises with the sum's error |
| TopBatsmen.SwapLoop | plotting-logic/top-10-rcb-batsman-plot.py:31-33 | the `(runs, batsman)` list is the totals' items swapped, in key order |
| TopBatsmen.TupleRankingOrderFree | plotting-logic/top-10-rcb-batsman-plot.py:34 | sorting the tuples depends only on which tuples there are, not their order |
| TopBatsmen.TupleRankingFacts | plotting-logic/top-10-rcb-batsman-plot.py:34-35 | up to ten distinct batsmen with their own totals, descending as tuples, none below a batsman left out |
| TopBatsmen.TupleTopTenFacts | plotting-logic/top-10-rcb-batsman-plot.py:37-39 | the dict holds min(10, n) batsmen, each with their own total |
| TopBatsmen.TupleTopTenOmitted | plotting-logic/top-10-rcb-batsman-plot.py:34-39 | no batsman kept has fewer runs than one left out |
| TopBatsmen.TupleTopTenOrder | plotting-logic/top-10-rcb-batsman-plot.py:34-39 | keys in descending runs, and equal runs in descending name order |
| TopBatsmen.Top10 | plotting-logic/top-10-rcb-batsman-plot.py:20-40 | the set-or-increment totals and the tuple ranking; each kept batsman has their summed runs; raises with the sum's error |
| SeasonTeams.CreditLoop | plotting-logic-code/stacked_bar_chart_plot.py:42-46 | `if season not in d: d[season] = {}` and the team loop credit each team once in that season |
| SeasonTeams.TallyRowsLoop | plotting-logic/stacked_bar_chart_plot.py:29-38 | the row loop over a nested dict ends as the tally function says, or with the first row's error |
| SeasonTeams.TallyAt | plotting-logic-code/stacked_bar_chart_plot.py:36-48 | seasons are exactly those credited, in first-seen order; t's count in s is how often t is credited in s; the teams of s are those credited there; s's counts add up to its credits |
| SeasonTeams.MatchesPlayedAt | plotting-logic-code/stacked_bar_chart_plot.py:36-48 | t's count in s is its appearances as team1 or team2 in s; the teams of s are those that appear; s's counts add up to twice its matches |
| SeasonTeams.LoadedMatches | plotting-logic-code/stacked_bar_chart_plot.py:22-27 | a completed load holds one match per row, read from that row |
| SeasonTeams.LoadMatches | plotting-logic-code/stacked_bar_chart_plot.py:14-28 | one match per row, read from that row; raises exactly when some row's read fails |
| SeasonTeams.CalculateMatchesPlayed | plotting-logic-code/stacked_bar_chart_plot.py:31-48 | seasons are those of the matches; t's count in s is t's appearances in s; s's counts add up to twice its matches |
| SeasonTeams.CalculateStacked | plotting-logic/stacked_bar_chart_plot.py:26-40 | raises exactly when a row's read fails; otherwise the same seasons, per-team appearances and totals as the matches-played count |
| SeasonTeams.WinsAt | plotting-logic-code/matches_won_byteam_plot.py:28-31 | t's count in s is the number of rows read as a win of t in s; each count at least 1; s's counts add up to its wins |
| SeasonTeams.WinOf | plotting-logic-code/matches_won_byteam_plot.py:23-26 | a counted winner is the row's stripped winner, and it is non-empty |
| SeasonTeams.NoEmptyWinner | plotting-logic-code/matches_won_byteam_plot.py:24-26 | no season counts the empty team |
| SeasonTeams.LoadMatchesWon | plotting-logic-code/matches_won_byteam_plot.py:13-33 | t's count in s is the number of rows of s with stripped winner t; a season is a key exactly when a row of it has a winner; a non-integer season raises even with an empty winner |
| SeasonTeams.Calculations | plotting-logic/matches-won-byteam-plot.py:20-31 | every row counts, an empty winner under ""; t's count in s is the number of rows read as (s, t); a season is a key exactly when a row has it |
| SeasonTeams.CalcualteStackedAsWritten | plotting-logic/stacked-bar-chart-plot.py:20-33 | the loop as written ends as the as-written tally says |
| SeasonTeams.BuggyPairFacts | plotting-logic/stacked-bar-chart-plot.py:28-32 | both passes write only team1's entry, and counts stay at least 1 |
| SeasonTeams.BuggyTallyAt | plotting-logic/stacked-bar-chart-plot.py:20-33 | every season of a match is a key; every counted team is some match's team1 in that season; counts are at least 1 |
| SeasonTeams.BuggyDropsTeam2 | plotting-logic/stacked-bar-chart-plot.py:28-32 | one match of A against B in 2008 is counted as {A: 1} only |
| SeasonTeams.PlayedKeepsTeam2 | plotting-logic/stacked_bar_chart_plot.py:37-38 | the same match in the intended count gives {A: 1, B: 1} |
| Stacking.SortedSeasons | plotting-logic-code/stacked_bar_chart_plot.py:53 | `sorted(d.keys())`: every season once, strictly ascending |
| Stacking.SortedTeams | plotting-logic-code/stacked_bar_chart_plot.py:54 | every team of some season, once each, strictly ascending by code point; the same code is also at plotting-logic/stacked-bar-chart-plot.py:37-43 |
| Stacking.SortedTeamsOrderFree | plotting-logic/matches-won-byteam-plot.py:35-39 | the team order depends only on which teams there are, not on insertion order |
| Stacking.TeamCounts | plotting-logic-code/stacked_bar_chart_plot.py:55-59 | each team's list has one entry per season: its count there, or 0 where the season lacks it |
| Stacking.ColorOf | plotting-logic-code/stacked_bar_chart_plot.py:61-79 | a team has a colour exactly when it is one of the thirteen listed; no other listed team shares that colour, so every listed team's bars can be told apart; any other team gets no colour |
| Stacking.Stack | plotting-logic-code/stacked_bar_chart_plot.py:77-81 | the bars drawn and the final `bottom` are the layers and the column sums |
| Stacking.LayersStacked | plotting-logic-code/stacked_bar_chart_plot.py:77-81 | the first bar stands on zeros, each next on the top of the one before, and the last top is the final `bottom` |
| Stacking.LayersWithin | plotting-logic-code/stacked_bar_chart_plot.py:77-81 | with no negative count, every bar's base lies between zero and its column's final top |
| Stacking.ColumnTotal | plotting-logic-code/stacked_bar_chart_plot.py:81 | a column summed over the sorted teams is the total of its season's counts |
| Stacking.PlotStacked | plotting-logic-code/stacked_bar_chart_plot.py:51-81 | seasons and teams sorted; each team's list holds its per-season counts; the bars are stacked; each column reaches its season's total; the same code is also at plotting-logic/stacked_bar_chart_plot.py:43-74, plotting-logic/stacked-bar-chart-plot.py:36-71, plotting-logic-code/matches_won_byteam_plot.py:36-67, plotting-logic/matches-won-byteam-plot.py:33-67 |

## Left out

- Drawing: the matplotlib figures, titles, labels, legends, `tight_layout` and `show` calls are outside the model. The model stops at the data handed to `plt.bar`.
- `print` output (the umpire notice and the printed results) is modelled only as the no-data chart value.
- File and directory I/O: `open`, `os.listdir` and `os.path.join` are replaced by their contents as parameters. The encoding is taken as already decoded text.
- `csv.DictReader`: quoting, embedded newlines, and the `None` values and `None` key it gives for short and long lines are not modelled. Its rows arrive as complete records. The hand-written `read_data` is modelled in full.
- Economy.Economy: the exact quotient is kept and `round(..., 2)` is left out. Two bowlers whose economies differ but round to the same value are ordered by the exact value, not in first-seen order.
- Economy.TopTenFacts: ties are stated on the exact economy, for the same reason.
- Builtins.Lower: only ASCII letters are lowered. Non-ASCII case mapping is out of scope.
- Builtins.ParseInt: `int()` accepts the ASCII digits, an optional sign, surrounding whitespace and single underscores between digits. Non-ASCII Unicode digits are not modelled.
- The module-level code that ties each script together is not modelled. That includes the unused second `read_data` at plotting-logic/extra-run-conceded-perteam-plot.py:40-41. Each function is modelled on its own inputs.
- The sets of match ids (`set()` and `.add`) are modelled as sequences. Membership, the only use, is the same.
- Dict values are plain values: the stats and inner dicts are never aliased, so in-place updates of a shared object are not modelled.
- Stacking.PlotStacked: that no bar starts below zero or above its column's top is stated by Stacking.LayersWithin, not by the method's own ensures.
- SeasonTeams.CalcualteStackedAsWritten: its own contract only ties it to the as-written tally. What that tally counts is stated by SeasonTeams.BuggyTallyAt and SeasonTeams.BuggyDropsTeam2.
- The `slicing-logic` pandas scripts are not part of this model.

## Findings

| source | as written | input that shows it | evidently intended | confidence | as-written member | corrected member |
|---|---|---|---|---|---|---|
| plotting-logic/stacked-bar-chart-plot.py:28-32 | both passes of `for team in [team1, team2]` test `team` but write `calculations[seasons][team1]`, so team2 never gets an entry | one row with team1 = A, team2 = B, season = 2008 gives {2008: {A: 1}}: B's pass finds B absent and sets A to 1 again | {2008: {A: 1, B: 1}}, as calculate_stacked at plotting-logic/stacked_bar_chart_plot.py:37-38 computes | high (by proof, not executed) | SeasonTeams.BuggyDropsTeam2 | SeasonTeams.PlayedKeepsTeam2 |
