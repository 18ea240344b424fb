/** `SolarDataExporter` (src/data_exporter.py): dropping the transient
    analysis columns and exporting a table. Writing the CSV file is reduced
    to the table that would be written. */
module Exporter {
  import opened Wrappers
  import opened Seqs
  import opened Tables

  /** Columns added during analysis and dropped before export by default. */
  const DefaultTempColumns: seq<string> := ["Hour", "Month", "Day", "WD_bin", "Outlier_Flag"]

  /** A `SolarDataExporter`: it holds its own copy of the caller's table. */
  datatype Exporter = Exporter(df: Table)

  /** `remove_temp_columns(temp_columns)`: `None` means the default list;
      listed names the table lacks are ignored. The result replaces the
      exporter's table. */
  function RemoveTempColumns(e: Exporter, temp: Option<seq<string>>): (r: Exporter)
    ensures r.df.height == e.df.height
    ensures forall n :: n in r.df.cols <==> n in e.df.cols && n !in temp.GetOr(DefaultTempColumns)
    ensures forall n :: n in r.df.cols ==> r.df.cols[n] == e.df.cols[n]
    ensures temp.None? ==> forall n :: n in DefaultTempColumns ==> n !in r.df.cols
  {
    Exporter(DropColumns(e.df, PresentNames(e.df, temp.GetOr(DefaultTempColumns))))
  }

  /** The columns that remain keep their relative order. */
  lemma {:induction false} RemoveTempKeepsOrder(e: Exporter, temp: Option<seq<string>>, i: int, j: int)
    requires 0 <= i < j < |RemoveTempColumns(e, temp).df.names|
    ensures var names := RemoveTempColumns(e, temp).df.names;
      IndexOf(e.df.names, names[i]) < IndexOf(e.df.names, names[j])
  {
    var t := e.df;
    var drop := PresentNames(t, temp.GetOr(DefaultTempColumns));
    var mask := Unlisted(t.names, drop);
    var names := RemoveTempColumns(e, temp).df.names;
    assert names == Pick(t.names, mask);
    var ks := Kept(mask);
    assert names[i] == t.names[ks[i]] && names[j] == t.names[ks[j]];
    IndexOfDistinct(t.names, ks[i]);
    IndexOfDistinct(t.names, ks[j]);
  }

  /** Dropping names the table does not have leaves it as it is. */
  lemma DropAbsent(t: Table, ns: seq<string>)
    requires forall n :: n in ns ==> n !in t.cols
    ensures DropColumns(t, ns) == t
  {
    PickAll(t.names, Unlisted(t.names, ns));
    assert DropColumns(t, ns).cols == t.cols;
  }

  /** Removing the temporary columns twice is removing them once. */
  lemma RemoveTempIdempotent(e: Exporter, temp: Option<seq<string>>)
    ensures RemoveTempColumns(RemoveTempColumns(e, temp), temp) == RemoveTempColumns(e, temp)
  {
    var t := RemoveTempColumns(e, temp).df;
    DropAbsent(t, PresentNames(t, temp.GetOr(DefaultTempColumns)));
  }

  /** `export(path, remove_temp, temp_columns)`: the exporter's table after
      the optional column removal (which it keeps), and the table written. */
  function Export(e: Exporter, removeTemp: bool, temp: Option<seq<string>>): (r: (Exporter, Table))
    ensures r.1 == r.0.df && r.1.height == e.df.height
    ensures !removeTemp ==> r.1 == e.df
    ensures removeTemp ==> forall n :: n in r.1.cols <==> n in e.df.cols && n !in temp.GetOr(DefaultTempColumns)
    ensures forall n :: n in r.1.cols ==> r.1.cols[n] == e.df.cols[n]
  {
    var e1 := if removeTemp then RemoveTempColumns(e, temp) else e;
    (e1, e1.df)
  }

  /** `export_cleaned_data(df, path, remove_temp, temp_columns)`: a fresh
      exporter over df, exported; df itself is not changed. */
  function ExportCleanedData(df: Table, removeTemp: bool, temp: Option<seq<string>>): (written: Table)
    ensures written.height == df.height
    ensures !removeTemp ==> written == df
    ensures removeTemp ==> forall n :: n in written.cols <==> n in df.cols && n !in temp.GetOr(DefaultTempColumns)
    ensures forall n :: n in written.cols ==> written.cols[n] == df.cols[n]
  {
    Export(Exporter(df), removeTemp, temp).1
  }
}
