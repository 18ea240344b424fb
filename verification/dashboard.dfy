/** The dashboard's data helpers (app/utils.py) and its date-range filter
    (app/main.py). Files are abstracted away: an upload slot holds a table or
    nothing, and the data directory is an existence flag plus a map from file
    names to the tables those files hold. Tables arrive with their Timestamp
    column already parsed into timestamps. */
module Dashboard {
  import opened Wrappers
  import opened Seqs
  import opened Stats
  import opened Tables

  const TimestampColumn := "Timestamp"

  datatype Error =
    | NoFilesUploaded                     // the ValueError of load_data_from_uploaded_files
    | DirectoryNotFound                   // FileNotFoundError: no data directory
    | MissingFiles(files: seq<string>)    // FileNotFoundError naming the missing files
    | MissingParseColumn(name: string)    // read_csv: a parse_dates column the file lacks
    | LoadFailed(cause: Error)            // FileNotFoundError wrapping a read failure
    | MissingColumns(names: seq<string>)  // KeyError

  // ---------------------------------------------------------------------
  // load_data_from_uploaded_files

  /** `country_mapping`: the upload slots in their fixed order, each with the
      name its rows are tagged with. */
  const UploadSlots: seq<(string, string)> :=
    [("benin", "Benin"), ("sierra_leone", "Sierra Leone"), ("togo", "Togo")]

  /** `key in uploaded_files_dict and uploaded_files_dict[key] is not None` */
  predicate Given(uploads: map<string, Option<Table>>, key: string)
  {
    key in uploads && uploads[key].Some?
  }

  function GivenMask(uploads: map<string, Option<Table>>, slots: seq<(string, string)>): (m: seq<bool>)
    ensures |m| == |slots|
    ensures forall k :: 0 <= k < |slots| ==> (m[k] <==> Given(uploads, slots[k].0))
  {
    seq(|slots|, k requires 0 <= k < |slots| => Given(uploads, slots[k].0))
  }

  /** The uploaded tables, in slot order whatever the order of the map. */
  function GivenTables(uploads: map<string, Option<Table>>, slots: seq<(string, string)>): (ts: seq<Table>)
    ensures |ts| == CountTrue(GivenMask(uploads, slots))
    ensures forall j :: 0 <= j < |ts| ==>
      Given(uploads, slots[Kept(GivenMask(uploads, slots))[j]].0)
      && ts[j] == uploads[slots[Kept(GivenMask(uploads, slots))[j]].0].value
  {
    var ks := Kept(GivenMask(uploads, slots));
    seq(|ks|, j requires 0 <= j < |ks| => uploads[slots[ks[j]].0].value)
  }

  /** The display names of the uploaded slots, in the same order. */
  function GivenNames(uploads: map<string, Option<Table>>, slots: seq<(string, string)>): (ns: seq<string>)
    ensures |ns| == CountTrue(GivenMask(uploads, slots))
    ensures forall j :: 0 <= j < |ns| ==> ns[j] == slots[Kept(GivenMask(uploads, slots))[j]].1
  {
    var ks := Kept(GivenMask(uploads, slots));
    seq(|ks|, j requires 0 <= j < |ks| => slots[ks[j]].1)
  }

  /** Some uploaded table lacks the Timestamp column that read_csv is told to
      parse. */
  predicate UnparsableUpload(uploads: map<string, Option<Table>>, slots: seq<(string, string)>)
  {
    exists k :: 0 <= k < |slots| && Given(uploads, slots[k].0) && TimestampColumn !in uploads[slots[k].0].value.cols
  }

  /** `load_data_from_uploaded_files(files)`: every given upload, tagged with
      its country, concatenated in slot order. */
  function LoadDataFromUploadedFiles(uploads: map<string, Option<Table>>): (r: Result<Table, Error>)
    ensures r == Err(MissingParseColumn(TimestampColumn)) <==> UnparsableUpload(uploads, UploadSlots)
    ensures r == Err(NoFilesUploaded) <==>
      !UnparsableUpload(uploads, UploadSlots) && forall k :: 0 <= k < |UploadSlots| ==> !Given(uploads, UploadSlots[k].0)
    ensures r.Err? ==> r.error == NoFilesUploaded || r.error == MissingParseColumn(TimestampColumn)
    ensures r.Ok? ==> r.value == TagConcat(GivenTables(uploads, UploadSlots), GivenNames(uploads, UploadSlots))
    ensures r.Ok? ==> r.value.height == TotalHeight(GivenTables(uploads, UploadSlots))
  {
    if UnparsableUpload(uploads, UploadSlots) then Err(MissingParseColumn(TimestampColumn))
    else
      var ts := GivenTables(uploads, UploadSlots);
      if |ts| == 0 then Err(NoFilesUploaded)
      else Ok(TagConcat(ts, GivenNames(uploads, UploadSlots)))
  }

  /** With all three files uploaded the blocks are Benin, Sierra Leone, Togo. */
  lemma AllUploadedOrder(uploads: map<string, Option<Table>>)
    requires forall k :: 0 <= k < |UploadSlots| ==> Given(uploads, UploadSlots[k].0)
    ensures GivenNames(uploads, UploadSlots) == ["Benin", "Sierra Leone", "Togo"]
  {
    var m := GivenMask(uploads, UploadSlots);
    KeptAll(m);
    var ns := GivenNames(uploads, UploadSlots);
    assert ns[0] == "Benin" && ns[1] == "Sierra Leone" && ns[2] == "Togo";
  }

  // ---------------------------------------------------------------------
  // load_all_countries_data

  const RequiredFiles: seq<string> := ["benin_clean.csv", "sierra_leone_clean.csv", "togo_clean.csv"]
  const CountryNames: seq<string> := ["Benin", "Sierra Leone", "Togo"]

  /** Which of the `required` files the directory lacks. */
  function NotUploaded(required: seq<string>, files: map<string, Table>): (mask: seq<bool>)
    ensures |mask| == |required|
    ensures forall k :: 0 <= k < |required| ==> (mask[k] <==> required[k] !in files)
  {
    seq(|required|, k requires 0 <= k < |required| => required[k] !in files)
  }

  /** The required files the directory lacks, in required order. */
  function MissingFileList(required: seq<string>, files: map<string, Table>): (ms: seq<string>)
    requires Distinct(required)
    ensures forall f :: f in ms <==> f in required && f !in files
    ensures |ms| == 0 <==> forall f :: f in required ==> f in files
    ensures Distinct(ms)
    ensures forall a, b :: 0 <= a < b < |ms| ==> IndexOf(required, ms[a]) < IndexOf(required, ms[b])
  {
    var mask := NotUploaded(required, files);
    forall f
      ensures f in Pick(required, mask) <==> f in required && f !in files
    {
      PickMembers(required, mask, f);
    }
    PickDistinct(required, mask);
    PickOrdered(required, mask);
    Pick(required, mask)
  }

  /** The three country tables, in required order. */
  function RequiredTables(files: map<string, Table>): (ts: seq<Table>)
    requires forall f :: f in RequiredFiles ==> f in files
    ensures |ts| == |RequiredFiles| && forall k :: 0 <= k < |ts| ==> ts[k] == files[RequiredFiles[k]]
  {
    seq(|RequiredFiles|, k requires 0 <= k < |RequiredFiles| => files[RequiredFiles[k]])
  }

  predicate AllParse(ts: seq<Table>)
  {
    forall k :: 0 <= k < |ts| ==> TimestampColumn in ts[k].cols
  }

  /** `load_all_countries_data(data_dir)`: checks the directory, then all
      required files, then reads and tags the three tables and concatenates
      them in the fixed order Benin, Sierra Leone, Togo. */
  function LoadAllCountriesData(dirExists: bool, files: map<string, Table>): (r: Result<Table, Error>)
    ensures r == Err(DirectoryNotFound) <==> !dirExists
    ensures r.Err? && r.error.MissingFiles? <==> dirExists && exists f :: f in RequiredFiles && f !in files
    ensures r.Err? && r.error.MissingFiles? ==> r.error.files == MissingFileList(RequiredFiles, files) && |r.error.files| > 0
    ensures r == Err(LoadFailed(MissingParseColumn(TimestampColumn))) <==>
      && dirExists
      && (forall f :: f in RequiredFiles ==> f in files)
      && !AllParse(RequiredTables(files))
    ensures r.Ok? ==> dirExists && (forall f :: f in RequiredFiles ==> f in files) && AllParse(RequiredTables(files))
    ensures r.Ok? ==> r.value == TagConcat(RequiredTables(files), CountryNames)
    ensures r.Ok? ==> r.value.height == TotalHeight(RequiredTables(files))
  {
    if !dirExists then Err(DirectoryNotFound)
    else
      assert Distinct(RequiredFiles);
      var missing := MissingFileList(RequiredFiles, files);
      if |missing| > 0 then Err(MissingFiles(missing))
      else
        var ts := RequiredTables(files);
        if !AllParse(ts) then Err(LoadFailed(MissingParseColumn(TimestampColumn)))
        else Ok(TagConcat(ts, CountryNames))
  }

  // ---------------------------------------------------------------------
  // filter_data_by_countries and the date-range filter

  /** `df['Country'].isin(selected)`: only a text cell naming a selected
      country matches; null matches nothing. */
  function InSelection(c: Column, selected: seq<string>): (m: seq<bool>)
    ensures |m| == |c|
    ensures forall i :: 0 <= i < |c| ==> (m[i] <==> c[i].Text? && c[i].s in selected)
  {
    seq(|c|, i requires 0 <= i < |c| => c[i].Text? && c[i].s in selected)
  }

  /** `filter_data_by_countries(df, selected)` */
  function FilterDataByCountries(t: Table, selected: seq<string>): (r: Result<Table, Error>)
    ensures |selected| == 0 ==> r == Ok(t)
    ensures r.Err? <==> |selected| > 0 && CountryColumn !in t.cols
    ensures r.Err? ==> r.error == MissingColumns([CountryColumn])
    ensures r.Ok? ==> r.value.names == t.names && r.value.cols.Keys == t.cols.Keys
    ensures r.Ok? && |selected| > 0 ==> forall j :: 0 <= j < r.value.height ==>
      r.value.cols[CountryColumn][j].Text? && r.value.cols[CountryColumn][j].s in selected
  {
    if |selected| == 0 then Ok(t)
    else if CountryColumn !in t.cols then Err(MissingColumns([CountryColumn]))
    else
      var keep := InSelection(t.cols[CountryColumn], selected);
      var r := SelectRows(t, keep);
      assert r.cols.Keys == t.cols.Keys;
      forall j | 0 <= j < r.height
        ensures r.cols[CountryColumn][j].Text? && r.cols[CountryColumn][j].s in selected
      {
        SelectRowsSound(t, keep, j);
      }
      Ok(r)
  }

  /** Every row of a selected country survives the filter, and the surviving
      rows are the input rows in their original order. */
  lemma FilterKeepsSelectedRows(t: Table, selected: seq<string>)
    requires |selected| > 0 && CountryColumn in t.cols
    ensures var r := FilterDataByCountries(t, selected).value;
      var keep := InSelection(t.cols[CountryColumn], selected);
      && r.height == CountTrue(keep)
      && (forall i :: 0 <= i < t.height && keep[i] ==> i in Kept(keep))
      && (forall j, n :: 0 <= j < r.height && n in t.cols ==> r.cols[n][j] == t.cols[n][Kept(keep)[j]])
  {
    var keep := InSelection(t.cols[CountryColumn], selected);
    var r := FilterDataByCountries(t, selected).value;
    assert r == SelectRows(t, keep);
    forall i | 0 <= i < t.height && keep[i]
      ensures i in Kept(keep)
    {
      SelectRowsComplete(t, keep, i);
    }
    forall j, n | 0 <= j < r.height && n in t.cols
      ensures r.cols[n][j] == t.cols[n][Kept(keep)[j]]
    {
      SelectRowsSound(t, keep, j);
    }
  }

  /** One day in nanoseconds, pandas' timestamp resolution. */
  const DayNanos: int := 86_400_000_000_000

  /** `start <= ts < end + 1 day`; NaT compares false. */
  predicate InDateRange(c: Cell, start: int, end: int)
    ensures InDateRange(c, start, end) ==> c.Stamp?
    ensures c.Stamp? && start <= end <= c.t < end + DayNanos ==> InDateRange(c, start, end)
    ensures c.Stamp? && c.t >= end + DayNanos ==> !InDateRange(c, start, end)
  {
    c.Stamp? && start <= c.t < end + DayNanos
  }

  function DateMask(c: Column, start: int, end: int): (m: seq<bool>)
    ensures |m| == |c|
    ensures forall i :: 0 <= i < |c| ==> (m[i] <==> InDateRange(c[i], start, end))
  {
    seq(|c|, i requires 0 <= i < |c| => InDateRange(c[i], start, end))
  }

  /** The dashboard's date filter: the rows whose timestamp lies between the
      start date and the end of the end date. A table without a Timestamp
      column raises KeyError. */
  function FilterByDateRange(t: Table, start: int, end: int): (r: Result<Table, Error>)
    requires TimestampColumn in t.cols ==> IsTimeColumn(t.cols[TimestampColumn])
    ensures r.Err? <==> TimestampColumn !in t.cols
    ensures r.Err? ==> r.error == MissingColumns([TimestampColumn])
    ensures r.Ok? ==> r.value.names == t.names && r.value.cols.Keys == t.cols.Keys
    ensures r.Ok? ==> r.value.height <= t.height
    ensures r.Ok? ==> forall j :: 0 <= j < r.value.height ==> InDateRange(r.value.cols[TimestampColumn][j], start, end)
  {
    if TimestampColumn !in t.cols then Err(MissingColumns([TimestampColumn]))
    else
      var keep := DateMask(t.cols[TimestampColumn], start, end);
      var r := SelectRows(t, keep);
      assert r.cols.Keys == t.cols.Keys;
      forall j | 0 <= j < r.height
        ensures InDateRange(r.cols[TimestampColumn][j], start, end)
      {
        SelectRowsSound(t, keep, j);
      }
      Ok(r)
  }

  /** Every row whose timestamp lies in the range survives the date filter,
      and the surviving rows are input rows in their original order. */
  lemma DateFilterKeepsRowsInRange(t: Table, start: int, end: int)
    requires TimestampColumn in t.cols && IsTimeColumn(t.cols[TimestampColumn])
    ensures var r := FilterByDateRange(t, start, end).value;
      var keep := DateMask(t.cols[TimestampColumn], start, end);
      && r.height == CountTrue(keep)
      && (forall i :: 0 <= i < t.height && keep[i] ==> i in Kept(keep))
      && (forall j, n :: 0 <= j < r.height && n in t.cols ==> r.cols[n][j] == t.cols[n][Kept(keep)[j]])
  {
    var keep := DateMask(t.cols[TimestampColumn], start, end);
    var r := FilterByDateRange(t, start, end).value;
    assert r == SelectRows(t, keep);
    forall i | 0 <= i < t.height && keep[i]
      ensures i in Kept(keep)
    {
      SelectRowsComplete(t, keep, i);
    }
    forall j, n | 0 <= j < r.height && n in t.cols
      ensures r.cols[n][j] == t.cols[n][Kept(keep)[j]]
    {
      SelectRowsSound(t, keep, j);
    }
  }

  // ---------------------------------------------------------------------
  // create_summary_table

  /** The columns the summary aggregates, in the order of its agg dict. */
  const SummaryColumns: seq<string> := ["GHI", "DNI", "DHI", TimestampColumn]

  /** `Timestamp: ['min', 'max', 'count']` of one group: the first and last
      timestamp (NaT when there is none) and the number of non-NaT ones. */
  datatype DateStats = DateStats(first: Option<int>, last: Option<int>, count: nat)

  /** One summary row: GHI, DNI and DHI statistics (the table shows their
      mean, median and standard deviation) and the group's date statistics. */
  datatype CountrySummary = CountrySummary(
    country: Cell, ghi: ColumnSummary, dni: ColumnSummary, dhi: ColumnSummary, dates: DateStats)

  function Earliest(ts: seq<int>): (m: int)
    requires |ts| > 0
    ensures m in ts && forall v :: v in ts ==> m <= v
  {
    if |ts| == 1 then ts[0]
    else
      var rest := Earliest(ts[1..]);
      assert forall v :: v in ts ==> v == ts[0] || v in ts[1..];
      if ts[0] <= rest then ts[0] else rest
  }

  function Latest(ts: seq<int>): (m: int)
    requires |ts| > 0
    ensures m in ts && forall v :: v in ts ==> v <= m
  {
    if |ts| == 1 then ts[0]
    else
      var rest := Latest(ts[1..]);
      assert forall v :: v in ts ==> v == ts[0] || v in ts[1..];
      if ts[0] >= rest then ts[0] else rest
  }

  function DateStatsOf(c: Column): (d: DateStats)
    requires IsTimeColumn(c)
    ensures d.count + NullCount(c) == |c|
    ensures d.first.Some? <==> d.count > 0
    ensures d.last.Some? <==> d.count > 0
    ensures d.first.Some? ==> d.first.value <= d.last.value
    ensures d.first.Some? ==> Stamp(d.first.value) in c && Stamp(d.last.value) in c
    ensures d.first.Some? ==> forall v :: Stamp(v) in c ==> d.first.value <= v <= d.last.value
  {
    var stamps := Stamps(c);
    if |stamps| == 0 then DateStats(None, None, 0)
    else DateStats(Some(Earliest(stamps)), Some(Latest(stamps)), |stamps|)
  }

  /** `groupby('Country')` keys: the distinct non-null countries. */
  function GroupKeys(c: Column): (ks: seq<Cell>)
    ensures Distinct(ks)
    ensures forall x :: x in ks <==> x in c && x != Null
  {
    var u := Uniques(c);
    var mask := seq(|u|, k requires 0 <= k < |u| => u[k] != Null);
    forall x
      ensures x in Pick(u, mask) <==> x in c && x != Null
    {
      PickMembers(u, mask, x);
    }
    PickDistinct(u, mask);
    Pick(u, mask)
  }

  /** The cell kinds pandas aggregates: numbers in GHI, DNI and DHI,
      timestamps in Timestamp (any of them may be missing). */
  predicate SummaryInputs(t: Table)
  {
    && (forall n :: n in ["GHI", "DNI", "DHI"] && n in t.cols ==> IsNumeric(t.cols[n]))
    && (TimestampColumn in t.cols ==> IsTimeColumn(t.cols[TimestampColumn]))
  }

  /** Every column the summary needs is there. */
  predicate Summarizable(t: Table)
  {
    && SummaryInputs(t)
    && CountryColumn in t.cols
    && (forall n :: n in SummaryColumns ==> n in t.cols)
  }

  /** A column keeps its cell kind under row selection. */
  lemma PickKinds(c: Column, keep: seq<bool>)
    requires |keep| == |c|
    ensures IsTimeColumn(c) ==> IsTimeColumn(Pick(c, keep))
    ensures IsNumeric(c) ==> IsNumeric(Pick(c, keep))
  {
  }

  /** One country's rows of column n. */
  function GroupColumn(t: Table, key: Cell, n: string): (c: Column)
    requires CountryColumn in t.cols && n in t.cols
    ensures |c| == CountTrue(RowsOf(t.cols[CountryColumn], key))
  {
    Pick(t.cols[n], RowsOf(t.cols[CountryColumn], key))
  }

  /** The summary row of one country: every statistic is taken over that
      country's rows only. */
  function GroupSummary(t: Table, key: Cell, root: real -> real): (row: CountrySummary)
    requires Summarizable(t)
    ensures row.country == key
    ensures row.ghi == Summarize(Values(GroupColumn(t, key, "GHI")), root)
    ensures row.dni == Summarize(Values(GroupColumn(t, key, "DNI")), root)
    ensures row.dhi == Summarize(Values(GroupColumn(t, key, "DHI")), root)
    ensures IsTimeColumn(GroupColumn(t, key, TimestampColumn))
    ensures row.dates == DateStatsOf(GroupColumn(t, key, TimestampColumn))
  {
    PickKinds(t.cols[TimestampColumn], RowsOf(t.cols[CountryColumn], key));
    CountrySummary(
      key,
      Summarize(Values(GroupColumn(t, key, "GHI")), root),
      Summarize(Values(GroupColumn(t, key, "DNI")), root),
      Summarize(Values(GroupColumn(t, key, "DHI")), root),
      DateStatsOf(GroupColumn(t, key, TimestampColumn)))
  }

  /** `a` may precede `b` when sorting by mean GHI, descending, NaN last. */
  predicate RanksBefore(a: CountrySummary, b: CountrySummary)
  {
    b.ghi.mean.None? || (a.ghi.mean.Some? && a.ghi.mean.value >= b.ghi.mean.value)
  }

  predicate SortedByGhi(rows: seq<CountrySummary>)
  {
    forall i, j :: 0 <= i < j < |rows| ==> RanksBefore(rows[i], rows[j])
  }

  function InsertByGhi(x: CountrySummary, rows: seq<CountrySummary>): (r: seq<CountrySummary>)
    requires SortedByGhi(rows)
    ensures SortedByGhi(r)
    ensures multiset(r) == multiset(rows) + multiset{x}
  {
    if |rows| == 0 then [x]
    else if RanksBefore(x, rows[0]) then
      InsertFirst(x, rows);
      [x] + rows
    else
      var rest := InsertByGhi(x, rows[1..]);
      InsertByGhiStep(x, rows, rest);
      [rows[0]] + rest
  }

  /** A row ranking before the head of sorted rows ranks before them all. */
  lemma InsertFirst(x: CountrySummary, rows: seq<CountrySummary>)
    requires SortedByGhi(rows) && |rows| > 0 && RanksBefore(x, rows[0])
    ensures SortedByGhi([x] + rows)
  {
    forall k | 0 <= k < |rows|
      ensures RanksBefore(x, rows[k])
    {
      if k > 0 {
        assert RanksBefore(rows[0], rows[k]);
      }
    }
  }

  /** The head of sorted rows may precede the insertion of a row that does
      not rank before it into the tail. */
  lemma InsertByGhiStep(x: CountrySummary, rows: seq<CountrySummary>, rest: seq<CountrySummary>)
    requires |rows| > 0 && SortedByGhi(rows) && !RanksBefore(x, rows[0])
    requires SortedByGhi(rest) && multiset(rest) == multiset(rows[1..]) + multiset{x}
    ensures SortedByGhi([rows[0]] + rest)
    ensures multiset([rows[0]] + rest) == multiset(rows) + multiset{x}
  {
    assert rows == [rows[0]] + rows[1..];
    forall k | 0 <= k < |rest|
      ensures RanksBefore(rows[0], rest[k])
    {
      assert rest[k] in multiset(rest);
      if rest[k] != x {
        assert rest[k] in rows[1..];
      }
    }
  }

  /** `sort_values('GHI_Mean', ascending=False)`: a permutation of the rows,
      sorted. */
  function SortByGhi(rows: seq<CountrySummary>): (r: seq<CountrySummary>)
    ensures SortedByGhi(r)
    ensures multiset(r) == multiset(rows)
  {
    if |rows| == 0 then []
    else
      assert rows == [rows[0]] + rows[1..];
      InsertByGhi(rows[0], SortByGhi(rows[1..]))
  }

  /** One summary row per group, before sorting. */
  function Groups(t: Table, root: real -> real): (gs: seq<CountrySummary>)
    requires Summarizable(t)
    ensures |gs| == |GroupKeys(t.cols[CountryColumn])|
    ensures forall k :: 0 <= k < |gs| ==> gs[k] == GroupSummary(t, GroupKeys(t.cols[CountryColumn])[k], root)
  {
    var keys := GroupKeys(t.cols[CountryColumn]);
    seq(|keys|, k requires 0 <= k < |keys| => GroupSummary(t, keys[k], root))
  }

  /** `create_summary_table(df)`: a KeyError when a needed column is
      missing, otherwise one row per country sorted by mean GHI. */
  function CreateSummaryTable(t: Table, root: real -> real): (r: Result<seq<CountrySummary>, Error>)
    requires SummaryInputs(t)
    ensures CountryColumn !in t.cols ==> r == Err(MissingColumns([CountryColumn]))
    ensures CountryColumn in t.cols ==> (r.Err? <==> exists n :: n in SummaryColumns && n !in t.cols)
    ensures CountryColumn in t.cols && r.Err? ==>
      r.error.MissingColumns? && forall n :: n in r.error.names <==> n in SummaryColumns && n !in t.cols
    ensures r.Ok? ==> Summarizable(t)
    ensures r.Ok? ==> SortedByGhi(r.value)
    ensures r.Ok? ==> multiset(r.value) == multiset(Groups(t, root))
  {
    if CountryColumn !in t.cols then Err(MissingColumns([CountryColumn]))
    else
      var absent := AbsentNames(t, SummaryColumns);
      if |absent| > 0 then Err(MissingColumns(absent))
      else Ok(SortByGhi(Groups(t, root)))
  }

  /** A row of the sorted summary is the summary of one of the groups. */
  lemma SummaryRowIsGroup(t: Table, root: real -> real, k: nat) returns (a: nat)
    requires SummaryInputs(t)
    requires CreateSummaryTable(t, root).Ok? && k < |CreateSummaryTable(t, root).value|
    ensures Summarizable(t)
    ensures a < |GroupKeys(t.cols[CountryColumn])|
    ensures CreateSummaryTable(t, root).value[k] == GroupSummary(t, GroupKeys(t.cols[CountryColumn])[a], root)
  {
    var rows := CreateSummaryTable(t, root).value;
    var gs := Groups(t, root);
    assert rows[k] in multiset(gs);
    a :| 0 <= a < |gs| && gs[a] == rows[k];
  }

  /** Every non-null country of the table has a row in the summary. */
  lemma SummaryCoversCountries(t: Table, root: real -> real)
    requires SummaryInputs(t)
    requires CreateSummaryTable(t, root).Ok?
    ensures Summarizable(t)
    ensures var rows := CreateSummaryTable(t, root).value;
      forall x :: x in t.cols[CountryColumn] && x != Null ==> exists k :: 0 <= k < |rows| && rows[k].country == x
  {
    var rows := CreateSummaryTable(t, root).value;
    var gs := Groups(t, root);
    var keys := GroupKeys(t.cols[CountryColumn]);
    forall x | x in t.cols[CountryColumn] && x != Null
      ensures exists k :: 0 <= k < |rows| && rows[k].country == x
    {
      var a :| 0 <= a < |keys| && keys[a] == x;
      assert gs[a] in multiset(rows);
      var k :| 0 <= k < |rows| && rows[k] == gs[a];
    }
  }

  /** Every row of the summary belongs to a non-null country of the table. */
  lemma SummaryRowsAreCountries(t: Table, root: real -> real)
    requires SummaryInputs(t)
    requires CreateSummaryTable(t, root).Ok?
    ensures Summarizable(t)
    ensures var rows := CreateSummaryTable(t, root).value;
      forall k :: 0 <= k < |rows| ==> rows[k].country in t.cols[CountryColumn] && rows[k].country != Null
  {
    var rows := CreateSummaryTable(t, root).value;
    forall k | 0 <= k < |rows|
      ensures rows[k].country in t.cols[CountryColumn] && rows[k].country != Null
    {
      var a := SummaryRowIsGroup(t, root, k);
    }
  }

  /** No country has two rows in the summary. */
  lemma SummaryCountriesDistinct(t: Table, root: real -> real)
    requires SummaryInputs(t)
    requires CreateSummaryTable(t, root).Ok?
    ensures var rows := CreateSummaryTable(t, root).value;
      forall j, k :: 0 <= j < k < |rows| ==> rows[j].country != rows[k].country
  {
    var rows := CreateSummaryTable(t, root).value;
    var gs := Groups(t, root);
    var keys := GroupKeys(t.cols[CountryColumn]);
    assert Distinct(gs) by {
      forall a, b | 0 <= a < b < |gs|
        ensures gs[a] != gs[b]
      {
        assert gs[a].country == keys[a] && gs[b].country == keys[b];
      }
    }
    forall j, k | 0 <= j < k < |rows|
      ensures rows[j].country != rows[k].country
    {
      var a := SummaryRowIsGroup(t, root, j);
      var b := SummaryRowIsGroup(t, root, k);
      if rows[j].country == rows[k].country {
        assert keys[a] == keys[b];
        assert a == b;
        CountTwice(rows, j, k);
        DistinctAtMostOnce(gs, rows[j]);
        assert false;
      }
    }
  }

  /** Each summary row's Record_Count is its country's row count less the
      rows whose timestamp is NaT, and its Date_Min is not after its
      Date_Max. */
  lemma SummaryRowDates(t: Table, root: real -> real, k: nat)
    requires SummaryInputs(t)
    requires CreateSummaryTable(t, root).Ok? && k < |CreateSummaryTable(t, root).value|
    ensures Summarizable(t)
    ensures var row := CreateSummaryTable(t, root).value[k];
      var stamps := GroupColumn(t, row.country, TimestampColumn);
      && row.dates.count + NullCount(stamps) == CountTrue(RowsOf(t.cols[CountryColumn], row.country))
      && (row.dates.first.Some? <==> row.dates.count > 0)
      && (row.dates.first.Some? ==> row.dates.last.Some? && row.dates.first.value <= row.dates.last.value)
  {
    var a := SummaryRowIsGroup(t, root, k);
    var row := CreateSummaryTable(t, root).value[k];
    var key := GroupKeys(t.cols[CountryColumn])[a];
    assert row.country == key;
    var stamps := GroupColumn(t, key, TimestampColumn);
    assert row.dates == DateStatsOf(stamps);
    assert |stamps| == CountTrue(RowsOf(t.cols[CountryColumn], key));
  }
}
