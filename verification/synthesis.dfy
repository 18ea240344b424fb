/** `CrossCountrySynthesizer` (scripts/cross_country_synthesis.py): tagging
    each country's table, concatenating them, and per-country summary
    statistics. Reading a CSV file is a lookup in `fs`, a map from paths to
    the tables those files hold; a path it lacks is a missing file. */
module Synthesis {
  import opened Wrappers
  import opened Seqs
  import opened Stats
  import opened Tables

  datatype Error =
    | FileNotFound(path: string)   // pd.read_csv on a missing file
    | NothingToConcatenate         // pd.concat([]) raises ValueError
    | NotAggregated                // the "No data loaded" ValueError
    | MissingColumn(name: string)  // KeyError
    | NoColumnsToPlot              // plt.subplots(1, 0) raises ValueError

  /** The synthesizer's fields `countries_data` and `combined_data`. */
  datatype Synth = Synth(countriesData: map<string, Table>, combined: Option<Table>)

  /** A new synthesizer has loaded nothing, so everything that reads the
      combined data refuses until `aggregate_all_countries` has run. */
  function Init(): (s: Synth)
    ensures s.countriesData == map[] && s.combined.None?
    ensures ExportCombinedData(s) == Err(NotAggregated)
    ensures forall columns :: CreateComparisonBoxplots(s, columns) == Err(NotAggregated)
  {
    Synth(map[], None)
  }

  /** `get_summary_statistics` on a new synthesizer is the "No data loaded"
      error, whatever columns are asked for. */
  lemma FreshSummaryRefused(columns: seq<string>, root: real -> real)
    ensures NumericRequest(Init(), columns)
    ensures GetSummaryStatistics(Init(), columns, root) == Err(NotAggregated)
  {
  }

  /** `load_country_data(name, path)`: the tagged table, also stored under
      the name. */
  function LoadCountryData(s: Synth, country: string, path: string, fs: map<string, Table>)
    : (r: Result<(Synth, Table), Error>)
    ensures r.Err? <==> path !in fs
    ensures r.Err? ==> r.error == FileNotFound(path)
    ensures r.Ok? ==> r.value.0.countriesData == s.countriesData[country := r.value.1]
    ensures r.Ok? ==> r.value.0.combined == s.combined
    ensures r.Ok? ==> r.value.1 == Tag(fs[path], country)
  {
    if path !in fs then Err(FileNotFound(path))
    else
      var t := Tag(fs[path], country);
      Ok((s.(countriesData := s.countriesData[country := t]), t))
  }

  function Countries(mapping: seq<(string, string)>): (cs: seq<string>)
    ensures |cs| == |mapping| && forall k :: 0 <= k < |mapping| ==> cs[k] == mapping[k].0
  {
    seq(|mapping|, k requires 0 <= k < |mapping| => mapping[k].0)
  }

  predicate AllFound(mapping: seq<(string, string)>, fs: map<string, Table>)
  {
    forall k :: 0 <= k < |mapping| ==> mapping[k].1 in fs
  }

  /** The untagged tables named by the mapping, in mapping order. */
  function Sources(mapping: seq<(string, string)>, fs: map<string, Table>): (ts: seq<Table>)
    requires AllFound(mapping, fs)
    ensures |ts| == |mapping| && forall k :: 0 <= k < |mapping| ==> ts[k] == fs[mapping[k].1]
  {
    seq(|mapping|, k requires 0 <= k < |mapping| => fs[mapping[k].1])
  }

  /** The position of the first mapping entry whose file is missing. */
  function FirstMissing(mapping: seq<(string, string)>, fs: map<string, Table>): (k: nat)
    requires !AllFound(mapping, fs)
    ensures k < |mapping| && mapping[k].1 !in fs && AllFound(mapping[..k], fs)
  {
    if mapping[0].1 !in fs then 0
    else
      var k := FirstMissing(mapping[1..], fs);
      assert mapping[..k + 1] == [mapping[0]] + mapping[1..][..k];
      k + 1
  }

  /** The loop of `aggregate_all_countries` (lines 94-96). A missing file
      stops it with the countries before it already stored. */
  function LoadEach(s: Synth, mapping: seq<(string, string)>, fs: map<string, Table>)
    : (r: (Synth, Result<seq<Table>, Error>))
    ensures r.0.combined == s.combined
    ensures r.1.Err? <==> !AllFound(mapping, fs)
    ensures r.1.Err? ==> r.1.error == FileNotFound(mapping[FirstMissing(mapping, fs)].1)
    ensures r.1.Ok? ==> AllFound(mapping, fs) && r.1.value == TagAll(Sources(mapping, fs), Countries(mapping))
    decreases |mapping|
  {
    if |mapping| == 0 then (s, Ok([]))
    else
      match LoadCountryData(s, mapping[0].0, mapping[0].1, fs)
      case Err(e) => (s, Err(e))
      case Ok(loaded) =>
        var rest := LoadEach(loaded.0, mapping[1..], fs);
        FoundTail(mapping, fs);
        if rest.1.Err? then rest
        else
          TaggedCons(mapping, fs);
          (rest.0, Ok([loaded.1] + rest.1.value))
  }

  /** All files are found when the first one is and all the others are; the
      first missing one is then among the others. */
  lemma FoundTail(mapping: seq<(string, string)>, fs: map<string, Table>)
    requires |mapping| > 0
    ensures AllFound(mapping, fs) <==> mapping[0].1 in fs && AllFound(mapping[1..], fs)
    ensures !AllFound(mapping, fs) && mapping[0].1 in fs ==>
      FirstMissing(mapping, fs) == FirstMissing(mapping[1..], fs) + 1
  {
    if mapping[0].1 in fs && AllFound(mapping[1..], fs) {
      forall k | 0 <= k < |mapping|
        ensures mapping[k].1 in fs
      {
        if k > 0 {
          assert mapping[k] == mapping[1..][k - 1];
        }
      }
    }
  }

  /** Tagging a list of sources is tagging its head, then its tail. */
  lemma TaggedCons(mapping: seq<(string, string)>, fs: map<string, Table>)
    requires |mapping| > 0 && AllFound(mapping, fs) && AllFound(mapping[1..], fs)
    ensures TagAll(Sources(mapping, fs), Countries(mapping))
      == [Tag(fs[mapping[0].1], mapping[0].0)] + TagAll(Sources(mapping[1..], fs), Countries(mapping[1..]))
  {
    var ts := Sources(mapping, fs);
    var cs := Countries(mapping);
    assert ts[1..] == Sources(mapping[1..], fs);
    assert cs[1..] == Countries(mapping[1..]);
    assert TagAll(ts, cs) == [Tag(ts[0], cs[0])] + TagAll(ts[1..], cs[1..]);
  }

  /** `aggregate_all_countries(mapping)`: the tagged tables concatenated in
      mapping order, stored as the combined table. The names of a Python dict
      are distinct. */
  function AggregateAllCountries(s: Synth, mapping: seq<(string, string)>, fs: map<string, Table>)
    : (r: (Synth, Result<Table, Error>))
    requires Distinct(Countries(mapping))
    ensures r.1.Err? <==> !AllFound(mapping, fs) || |mapping| == 0
    ensures AllFound(mapping, fs) && |mapping| == 0 ==> r.1 == Err(NothingToConcatenate)
    ensures r.1.Err? ==> r.0.combined == s.combined
    ensures r.1.Ok? ==> r.0.combined == Some(r.1.value)
    ensures r.1.Ok? ==> r.1.value == TagConcat(Sources(mapping, fs), Countries(mapping))
    ensures r.1.Ok? ==> r.1.value.height == TotalHeight(Sources(mapping, fs))
    ensures r.1.Ok? ==> forall k :: 0 <= k < |mapping| ==>
      mapping[k].0 in r.0.countriesData && r.0.countriesData[mapping[k].0] == Tag(fs[mapping[k].1], mapping[k].0)
  {
    var (s1, loaded) := LoadEach(s, mapping, fs);
    match loaded
    case Err(e) => (s1, Err(e))
    case Ok(ts) =>
      if |ts| == 0 then (s1, Err(NothingToConcatenate))
      else
        var combined := TagConcat(Sources(mapping, fs), Countries(mapping));
        LoadEachStores(s, mapping, fs);
        (s1.(combined := Some(combined)), Ok(combined))
  }

  /** With distinct names, each country's tagged table is what stays stored. */
  lemma {:induction false} LoadEachStores(s: Synth, mapping: seq<(string, string)>, fs: map<string, Table>)
    requires Distinct(Countries(mapping)) && AllFound(mapping, fs)
    ensures forall k :: 0 <= k < |mapping| ==>
      mapping[k].0 in LoadEach(s, mapping, fs).0.countriesData
      && LoadEach(s, mapping, fs).0.countriesData[mapping[k].0] == Tag(fs[mapping[k].1], mapping[k].0)
    decreases |mapping|
  {
    if |mapping| > 0 {
      var s1 := LoadCountryData(s, mapping[0].0, mapping[0].1, fs).value.0;
      var rest := mapping[1..];
      assert Countries(rest) == Countries(mapping)[1..];
      LoadEachStores(s1, rest, fs);
      var r := LoadEach(s, mapping, fs).0;
      assert r == LoadEach(s1, rest, fs).0;
      forall k | 0 <= k < |mapping|
        ensures mapping[k].0 in r.countriesData && r.countriesData[mapping[k].0] == Tag(fs[mapping[k].1], mapping[k].0)
      {
        if k == 0 {
          // later entries carry other names, so the first one is not overwritten
          var c := mapping[0].0;
          assert forall j :: 0 <= j < |rest| ==> rest[j].0 != c by {
            forall j | 0 <= j < |rest|
              ensures rest[j].0 != c
            {
              assert Countries(mapping)[j + 1] == rest[j].0 && Countries(mapping)[0] == c;
            }
          }
          LoadEachKeeps(s1, rest, fs, c);
        } else {
          assert mapping[k] == rest[k - 1];
        }
      }
    }
  }

  /** Loading other countries leaves a stored entry alone. */
  lemma {:induction false} LoadEachKeeps(s: Synth, mapping: seq<(string, string)>, fs: map<string, Table>, c: string)
    requires c in s.countriesData && forall j :: 0 <= j < |mapping| ==> mapping[j].0 != c
    ensures c in LoadEach(s, mapping, fs).0.countriesData
    ensures LoadEach(s, mapping, fs).0.countriesData[c] == s.countriesData[c]
    decreases |mapping|
  {
    if |mapping| > 0 && mapping[0].1 in fs {
      var s1 := LoadCountryData(s, mapping[0].0, mapping[0].1, fs).value.0;
      LoadEachKeeps(s1, mapping[1..], fs, c);
    }
  }

  // ---------------------------------------------------------------------
  // get_summary_statistics

  /** One row of the summary: the country and, per summarized column, its
      `_mean`, `_median`, `_std`, `_min` and `_max` entries. */
  datatype SummaryRow = SummaryRow(country: Cell, stats: map<string, ColumnSummary>)

  function SummaryRowOf(t: Table, key: Cell, columns: seq<string>, root: real -> real): (row: SummaryRow)
    requires CountryColumn in t.cols && NumericWherePresent(t, columns)
    ensures row.country == key
    ensures forall n :: n in row.stats <==> n in columns && n in t.cols
    ensures forall n :: n in row.stats ==>
      row.stats[n] == Summarize(Values(Pick(t.cols[n], RowsOf(t.cols[CountryColumn], key))), root)
  {
    var mask := RowsOf(t.cols[CountryColumn], key);
    SummaryRow(key, map n | n in columns && n in t.cols :: Summarize(Values(Pick(t.cols[n], mask)), root))
  }

  /** The requested columns the combined table has hold numbers and nulls:
      pandas' `mean` raises TypeError on a text column and summarizes a
      datetime column in its own terms. */
  predicate NumericRequest(s: Synth, columns: seq<string>)
  {
    s.combined.Some? ==> NumericWherePresent(s.combined.value, columns)
  }

  /** `get_summary_statistics(columns)`: one row per distinct country of the
      combined table, in order of first appearance. */
  function GetSummaryStatistics(s: Synth, columns: seq<string>, root: real -> real): (r: Result<seq<SummaryRow>, Error>)
    requires NumericRequest(s, columns)
    ensures s.combined.None? ==> r == Err(NotAggregated)
    ensures s.combined.Some? && CountryColumn !in s.combined.value.cols ==> r == Err(MissingColumn(CountryColumn))
    ensures r.Ok? ==> s.combined.Some? && CountryColumn in s.combined.value.cols
    ensures r.Ok? ==> |r.value| == |Uniques(s.combined.value.cols[CountryColumn])|
    ensures r.Ok? ==> forall k :: 0 <= k < |r.value| ==>
      r.value[k] == SummaryRowOf(s.combined.value, Uniques(s.combined.value.cols[CountryColumn])[k], columns, root)
  {
    match s.combined
    case None => Err(NotAggregated)
    case Some(t) =>
      if CountryColumn !in t.cols then Err(MissingColumn(CountryColumn))
      else
        var keys := Uniques(t.cols[CountryColumn]);
        Ok(seq(|keys|, k requires 0 <= k < |keys| => SummaryRowOf(t, keys[k], columns, root)))
  }

  /** The summary has one row per distinct country: every country of the
      combined table has a row and every row belongs to one. */
  lemma SummaryRowsPerCountry(s: Synth, columns: seq<string>, root: real -> real)
    requires NumericRequest(s, columns) && GetSummaryStatistics(s, columns, root).Ok?
    ensures var rows := GetSummaryStatistics(s, columns, root).value;
      forall x :: x in s.combined.value.cols[CountryColumn] <==> exists k :: 0 <= k < |rows| && rows[k].country == x
  {
    var rows := GetSummaryStatistics(s, columns, root).value;
    var c := s.combined.value.cols[CountryColumn];
    var u := Uniques(c);
    forall x | x in c
      ensures exists k :: 0 <= k < |rows| && rows[k].country == x
    {
      var k :| 0 <= k < |u| && u[k] == x;
      assert rows[k].country == x;
    }
  }

  /** No country has two rows, and the rows follow the order in which the
      countries first appear in the combined table. */
  lemma SummaryRowsOrdered(s: Synth, columns: seq<string>, root: real -> real)
    requires NumericRequest(s, columns) && GetSummaryStatistics(s, columns, root).Ok?
    ensures var rows := GetSummaryStatistics(s, columns, root).value;
      forall j, k :: 0 <= j < k < |rows| ==> rows[j].country != rows[k].country
    ensures var rows := GetSummaryStatistics(s, columns, root).value;
      var c := s.combined.value.cols[CountryColumn];
      forall j, k :: 0 <= j < k < |rows| ==> IndexOf(c, rows[j].country) < IndexOf(c, rows[k].country)
  {
  }

  /** Every statistic of a row is taken over that country's rows only, so
      its minimum <= mean <= maximum. */
  lemma SummaryRowsBounded(s: Synth, columns: seq<string>, root: real -> real)
    requires NumericRequest(s, columns) && GetSummaryStatistics(s, columns, root).Ok?
    ensures var rows := GetSummaryStatistics(s, columns, root).value;
      forall k, n :: 0 <= k < |rows| && n in rows[k].stats && rows[k].stats[n].mean.Some? ==>
        rows[k].stats[n].min.Some? && rows[k].stats[n].max.Some?
        && rows[k].stats[n].min.value <= rows[k].stats[n].mean.value <= rows[k].stats[n].max.value
  {
  }

  /** `create_comparison_boxplots(columns)`: refuses before aggregation; an
      empty list asks matplotlib for a grid of no columns, which it refuses;
      otherwise the columns it draws, those of the list the table has. */
  function CreateComparisonBoxplots(s: Synth, columns: seq<string>): (r: Result<seq<string>, Error>)
    ensures r.Err? <==> s.combined.None? || |columns| == 0
    ensures s.combined.None? ==> r == Err(NotAggregated)
    ensures s.combined.Some? && |columns| == 0 ==> r == Err(NoColumnsToPlot)
    ensures r.Ok? ==> forall n :: n in r.value <==> n in columns && n in s.combined.value.cols
  {
    match s.combined
    case None => Err(NotAggregated)
    case Some(t) =>
      if |columns| == 0 then Err(NoColumnsToPlot)
      else Ok(PresentNames(t, columns))
  }

  /** `export_combined_data(path)`: refuses before aggregation; otherwise
      the table written is the combined table. */
  function ExportCombinedData(s: Synth): (r: Result<Table, Error>)
    ensures r.Err? <==> s.combined.None?
    ensures r.Err? ==> r.error == NotAggregated
    ensures r.Ok? ==> Some(r.value) == s.combined
  {
    match s.combined
    case None => Err(NotAggregated)
    case Some(t) => Ok(t)
  }
}
