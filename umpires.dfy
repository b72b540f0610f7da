/** The foreign-umpire count: for every row of the umpire-to-country table,
    the umpire and country columns are read with a default of "" and stripped
    of surrounding whitespace; a row with either empty, or whose country is
    "india" in any letter case, is skipped; every other row adds one to its
    stripped country. The chart is drawn from the dict in its key order, or a
    notice is printed instead when the dict is empty. */
module Umpires {
  import opened Builtins
  import opened Dicts
  import opened GroupBy

  /** The stripped country a row counts under, if it counts. */
  function ForeignCountry(row: Record): (r: Option<string>)
    ensures r.Some? ==> r.value != [] && !IsSpace(r.value[0]) && !IsSpace(r.value[|r.value| - 1])
    ensures r.Some? ==> Lower(r.value) != "india"
    ensures r.Some? ==> Strip(FieldOr(row, "umpire", "")) != []
  {
    var umpire := Strip(FieldOr(row, "umpire", ""));
    var country := Strip(FieldOr(row, "country", ""));
    if umpire == [] || country == [] || Lower(country) == "india" then None else Some(country)
  }

  /** The key reader of the counting loop; it never raises, since both columns
      are read with `row.get(..., "")`. */
  function CountryOf(row: Record): Result<Option<string>> {
    Ok(ForeignCountry(row))
  }

  /** The counting loop never raises. */
  lemma CountNeverRaises(rows: seq<Record>)
    ensures GroupSum(rows, CountBy(CountryOf)).Ok?
  {
    GroupSumErr(rows, CountBy(CountryOf));
    forall i | 0 <= i < |rows| ensures CountBy(CountryOf)(rows[i]).Ok? {
      assert CountryOf(rows[i]).Ok?;
    }
  }

  /** The count under c is the number of rows counting under c; c is a key
      exactly when some row counts under it, and then its count is at least 1. */
  lemma CountAtCountry(rows: seq<Record>, c: string)
    requires GroupSum(rows, CountBy(CountryOf)).Ok?
    ensures Get(GroupSum(rows, CountBy(CountryOf)).value, c, 0) == Hits(rows, CountryOf, c)
    ensures c in GroupSum(rows, CountBy(CountryOf)).value.items <==>
      exists i :: 0 <= i < |rows| && ForeignCountry(rows[i]) == Some(c)
  {
    GroupCountAt(rows, CountryOf, c);
    HitsExist(rows, CountryOf, c);
    if exists i :: 0 <= i < |rows| && ForeignCountry(rows[i]) == Some(c) {
      var i :| 0 <= i < |rows| && ForeignCountry(rows[i]) == Some(c);
      assert CountryOf(rows[i]) == Ok(Some(c));
    }
  }

  /** Every key of the count is a stripped, non-empty country other than India. */
  lemma CountryKeyShape(rows: seq<Record>, c: string)
    requires GroupSum(rows, CountBy(CountryOf)).Ok?
    requires c in GroupSum(rows, CountBy(CountryOf)).value.items
    ensures c != [] && !IsSpace(c[0]) && !IsSpace(c[|c| - 1]) && Lower(c) != "india"
  {
    CountAtCountry(rows, c);
    var i :| 0 <= i < |rows| && ForeignCountry(rows[i]) == Some(c);
  }

  /** load_umpire_countries / read_umpire_countries: the count under each
      country is the number of rows counting under it; exactly the countries of
      counted rows are keys, each stripped, non-empty, never India, and counted
      at least once; the counts add up to the number of counted rows; the keys
      come in first-seen order. */
  method LoadUmpireCountries(rows: seq<Record>) returns (counts: Dict<string, int>)
    ensures GroupSum(rows, CountBy(CountryOf)) == Ok(counts)
    ensures Valid(counts)
    ensures forall c :: Get(counts, c, 0) == Hits(rows, CountryOf, c)
    ensures forall c :: c in counts.items <==> exists i :: 0 <= i < |rows| && ForeignCountry(rows[i]) == Some(c)
    ensures forall c :: c in counts.items ==> counts.items[c] >= 1
    ensures forall c :: c in counts.items ==> c != [] && !IsSpace(c[0]) && !IsSpace(c[|c| - 1]) && Lower(c) != "india"
    ensures Total(counts) == Kept(rows, CountryOf)
    ensures Collect(rows, CountryOf).Ok? && counts.keys == Dedup(Collect(rows, CountryOf).value)
  {
    var r := GroupSumLoop(rows, CountBy(CountryOf));
    CountNeverRaises(rows);
    counts := r.value;
    GroupCountAt(rows, CountryOf, "");
    forall c ensures Get(counts, c, 0) == Hits(rows, CountryOf, c)
      && (c in counts.items <==> exists i :: 0 <= i < |rows| && ForeignCountry(rows[i]) == Some(c))
    {
      CountAtCountry(rows, c);
    }
    forall c | c in counts.items ensures counts.items[c] >= 1 {
      GroupCountAt(rows, CountryOf, c);
    }
    forall c | c in counts.items ensures c != [] && !IsSpace(c[0]) && !IsSpace(c[|c| - 1]) && Lower(c) != "india" {
      CountryKeyShape(rows, c);
    }
  }

  /** What plot_umpire_countries draws. */
  datatype Chart =
    | NoData                                           // the "no foreign umpire data" notice
    | Bars(labels: seq<string>, heights: seq<int>)

  /** The chart is the notice exactly when the dict is empty; otherwise one bar
      per country, in the dict's key order, as high as its count. */
  function PlotUmpireCountries(counts: Dict<string, int>): (r: Chart)
    requires Valid(counts)
    ensures r.NoData? <==> counts.items == map[]
    ensures r.Bars? ==> r.labels == counts.keys && |r.heights| == |r.labels|
    ensures r.Bars? ==> forall i :: 0 <= i < |r.labels| ==> r.labels[i] in counts.items && r.heights[i] == counts.items[r.labels[i]]
  {
    if counts.keys == [] then
      NoData
    else
      assert counts.keys[0] in counts.items;
      Bars(counts.keys, seq(|counts.keys|, i requires 0 <= i < |counts.keys| && counts.keys[i] in counts.items => counts.items[counts.keys[i]]))
  }
}
