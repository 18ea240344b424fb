/** `SolarDataCleaner` (src/data_cleaner.py): missing-value census,
    imputation, Z-score outlier flagging and Winsorizing, with the object's
    hidden fields threaded as an explicit `State` record. Every step is a
    pure function from the old state to the new one. */
module Cleaner {
  import opened Wrappers
  import opened Seqs
  import opened Stats
  import opened Tables

  const FlagColumn := "Outlier_Flag"
  const DefaultMissingThreshold: real := 0.05

  /** The `ValueError` raised for an imputation method it does not know. */
  datatype Error = UnknownImputationMethod(name: string)

  datatype Method = Median | Mean | Mode

  /** The name `impute_missing_values` accepts for each method. */
  function MethodName(m: Method): string
  {
    match m
    case Median => "median"
    case Mean => "mean"
    case Mode => "mode"
  }

  /** The method dispatch: exactly the three names are known, each standing
      for its own method; any other name is the ValueError branch. */
  function ParseMethod(s: string): (r: Option<Method>)
    ensures forall m :: r == Some(m) <==> s == MethodName(m)
  {
    if s == "median" then Some(Median)
    else if s == "mean" then Some(Mean)
    else if s == "mode" then Some(Mode)
    else None
  }

  /** The dict returned by `detect_missing_values`. */
  datatype MissingStats = MissingStats(
    total: nat,
    byColumn: map<string, nat>,
    percentage: map<string, Option<real>>,
    highMissing: map<string, real>)

  /** One entry of `outlier_flags`. */
  datatype OutlierStat = OutlierStat(count: nat, percentage: Option<real>)

  /** `cleaning_stats` as stored. Its 'outliers' entry is the very dict held
      in `outlier_flags` (an alias, not a copy), so only the fact that the key
      was set is stored; the value is read from the state. */
  datatype Stored = Stored(missingValues: Option<MissingStats>, outliersLinked: bool, totalOutliers: Option<nat>)

  /** The fields of a `SolarDataCleaner`: `df`, `df_cleaned`,
      `outlier_flags` and `cleaning_stats`. */
  datatype State = State(df: Table, cleaned: Option<Table>, outlierFlags: map<string, OutlierStat>, stats: Stored)

  /** What `get_cleaning_report` hands out; a key that was never set is None. */
  datatype Report = Report(
    missingValues: Option<MissingStats>,
    outliers: Option<map<string, OutlierStat>>,
    totalOutliers: Option<nat>)

  /** `SolarDataCleaner(df)`: the cleaner works on its own copy of df. */
  function Init(df: Table): (s: State)
    ensures s.df == df && s.cleaned.None? && s.outlierFlags == map[]
    ensures GetCleaningReport(s) == Report(None, None, None)
  {
    State(df, None, map[], Stored(None, false, None))
  }

  /** count / rows * 100; NaN (None) for a table without rows. */
  function Percent(count: nat, rows: nat): (p: Option<real>)
    ensures p.Some? <==> rows > 0
    ensures p.Some? && count <= rows ==> 0.0 <= p.value <= 100.0
  {
    if rows == 0 then None
    else
      assert count as real / rows as real * 100.0 == (count as real * 100.0) / rows as real;
      Some(count as real / rows as real * 100.0)
  }

  // ---------------------------------------------------------------------
  // detect_missing_values

  function SumNulls(t: Table, ns: seq<string>): (k: nat)
    requires forall n :: n in ns ==> n in t.cols
    ensures k == 0 <==> forall n :: n in ns ==> NullCount(t.cols[n]) == 0
  {
    if |ns| == 0 then 0
    else NullCount(t.cols[ns[0]]) + SumNulls(t, ns[1..])
  }

  /** One entry of `missing_pct`: NaN for a table without rows, otherwise
      a percentage that is zero exactly when the column has no null. */
  function MissingPercent(t: Table, n: string): (p: Option<real>)
    requires n in t.cols
    ensures p.Some? <==> t.height > 0
    ensures p.Some? ==> 0.0 <= p.value <= 100.0
    ensures p.Some? ==> (p.value == 0.0 <==> NullCount(t.cols[n]) == 0)
    ensures p == MissingPercents(t)[n]
  {
    Percent(NullCount(t.cols[n]), t.height)
  }

  /** `detect_missing_values(threshold)`: per-column null counts and
      percentages, their total, and the columns whose percentage exceeds
      threshold * 100. The state is not changed. */
  function DetectMissingValues(s: State, threshold: real): (m: MissingStats)
    ensures m.byColumn.Keys == s.df.cols.Keys && m.percentage.Keys == s.df.cols.Keys
    ensures forall n :: n in s.df.cols ==>
      m.byColumn[n] == multiset(s.df.cols[n])[Null] && m.percentage[n] == Percent(m.byColumn[n], s.df.height)
    ensures m.total == SumOver(s.df.names, m.byColumn)
    ensures m.total == 0 <==>
      forall n, i :: n in s.df.cols && 0 <= i < |s.df.cols[n]| ==> s.df.cols[n][i] != Null
    ensures forall n :: n in m.highMissing <==>
      n in s.df.cols && m.percentage[n].Some? && m.percentage[n].value > threshold * 100.0
    ensures forall n :: n in m.highMissing ==> m.percentage[n] == Some(m.highMissing[n])
  {
    NoNullsAnywhere(s.df);
    SumNullsIsSum(s.df, s.df.names, NullCounts(s.df));
    var pct := MissingPercents(s.df);
    MissingStats(SumNulls(s.df, s.df.names), NullCounts(s.df), pct, HighMissing(pct, threshold))
  }

  /** `df.isnull().sum()`: the null count of each column. */
  function NullCounts(t: Table): (m: map<string, nat>)
    ensures m.Keys == t.cols.Keys
    ensures forall n :: n in t.cols ==> m[n] == multiset(t.cols[n])[Null]
  {
    map n | n in t.cols :: NullCount(t.cols[n])
  }

  /** Each column's null count as a percentage of the rows. */
  function MissingPercents(t: Table): (m: map<string, Option<real>>)
    ensures m.Keys == t.cols.Keys
    ensures forall n :: n in t.cols ==> m[n] == Percent(multiset(t.cols[n])[Null], t.height)
  {
    map n | n in t.cols :: Percent(NullCount(t.cols[n]), t.height)
  }

  /** The percentages above threshold * 100; NaN is above nothing. */
  function HighMissing(pct: map<string, Option<real>>, threshold: real): (m: map<string, real>)
    ensures forall n :: n in m <==> n in pct && pct[n].Some? && pct[n].value > threshold * 100.0
    ensures forall n :: n in m ==> pct[n] == Some(m[n])
  {
    map n | n in pct && pct[n].Some? && pct[n].value > threshold * 100.0 :: pct[n].value
  }

  /** `missing.sum()`: the counts of the listed names added up. */
  function SumOver(names: seq<string>, counts: map<string, nat>): nat
    requires forall n :: n in names ==> n in counts
  {
    if |names| == 0 then 0 else counts[names[0]] + SumOver(names[1..], counts)
  }

  /** The total computed from the columns is the sum of the per-column
      counts the census reports. */
  lemma {:induction false} SumNullsIsSum(t: Table, ns: seq<string>, counts: map<string, nat>)
    requires forall n :: n in ns ==> n in t.cols && n in counts && counts[n] == NullCount(t.cols[n])
    ensures SumNulls(t, ns) == SumOver(ns, counts)
  {
    if |ns| > 0 {
      SumNullsIsSum(t, ns[1..], counts);
    }
  }

  /** The total over all columns is zero exactly when no cell is null. */
  lemma NoNullsAnywhere(t: Table)
    ensures SumNulls(t, t.names) == 0 <==>
      forall n, i :: n in t.cols && 0 <= i < |t.cols[n]| ==> t.cols[n][i] != Null
  {
    if SumNulls(t, t.names) != 0 {
      var n :| n in t.names && NullCount(t.cols[n]) != 0;
      var i :| 0 <= i < |t.cols[n]| && t.cols[n][i] == Null;
    }
  }

  // ---------------------------------------------------------------------
  // impute_missing_values

  /** The fill value of a column from its non-null values. Median and mean
      of an empty series are NaN (None); the mode falls back to 0. */
  function FillValue(vals: seq<real>, m: Method): (v: Option<real>)
    ensures m == Mode ==> v.Some?
    ensures m == Mode && |vals| == 0 ==> v == Some(0.0)
    ensures m == Mode && |vals| > 0 ==> IsMode(vals, v.value)
    ensures m != Mode ==> (v.Some? <==> |vals| > 0)
    ensures m != Mode && v.Some? ==> Min(vals) <= v.value <= Max(vals)
  {
    match m
    case Median => if |vals| == 0 then None else Some(Stats.Median(vals))
    case Mean =>
      if |vals| == 0 then None
      else
        MeanBetween(vals);
        Some(Stats.Mean(vals))
    case Mode => if |vals| == 0 then Some(0.0) else Some(Stats.Mode(vals))
  }

  /** `fillna(v)`: nulls become v, other cells stay; NaN fills nothing. */
  function FillNulls(c: Column, v: Option<real>): (r: Column)
    ensures |r| == |c|
    ensures forall i :: 0 <= i < |c| && c[i] != Null ==> r[i] == c[i]
    ensures forall i :: 0 <= i < |c| && c[i] == Null ==> r[i] == (if v.Some? then Num(v.value) else Null)
  {
    if v.None? then c
    else seq(|c|, i requires 0 <= i < |c| => if c[i] == Null then Num(v.value) else c[i])
  }

  /** One column imputed with method m. */
  function ImputedColumn(c: Column, m: Method): (r: Column)
    requires IsNumeric(c)
    ensures |r| == |c| && IsNumeric(r)
  {
    FillNulls(c, FillValue(Values(c), m))
  }

  /** Imputation leaves no nulls in a column that has a non-null value, and
      with the mode method in every column; the other cells are unchanged. */
  lemma ImputedColumnComplete(c: Column, m: Method)
    requires IsNumeric(c)
    requires m == Mode || |Values(c)| > 0
    ensures NullCount(ImputedColumn(c, m)) == 0
    ensures forall i :: 0 <= i < |c| && c[i] != Null ==> ImputedColumn(c, m)[i] == c[i]
  {
  }

  /** Imputing an imputed column again changes nothing, so a column listed
      twice is imputed once. */
  lemma {:induction false} ImputedColumnIdempotent(c: Column, m: Method)
    requires IsNumeric(c)
    ensures ImputedColumn(ImputedColumn(c, m), m) == ImputedColumn(c, m)
  {
    var r := ImputedColumn(c, m);
    if FillValue(Values(c), m).None? {
      assert r == c;
    } else {
      FilledHasNoNulls(c, FillValue(Values(c), m));
      FillNoNulls(r, FillValue(Values(r), m));
    }
  }

  /** Filling with a value leaves no nulls. */
  lemma FilledHasNoNulls(c: Column, v: Option<real>)
    requires v.Some?
    ensures forall i :: 0 <= i < |c| ==> FillNulls(c, v)[i] != Null
  {
  }

  /** Filling a column without nulls changes nothing. */
  lemma FillNoNulls(c: Column, v: Option<real>)
    requires forall i :: 0 <= i < |c| ==> c[i] != Null
    ensures FillNulls(c, v) == c
  {
  }

  /** The loop of `impute_missing_values` (lines 92-105): absent columns are
      skipped and the method is checked at each present column, so an unknown
      method fails at the first present column, before anything is filled;
      with a known method each present column is filled in turn. */
  function ImputeLoop(t: Table, cols: seq<string>, how: string): (r: Result<Table, Error>)
    requires NumericWherePresent(t, cols)
    ensures r.Err? <==> ParseMethod(how).None? && exists n :: n in cols && n in t.cols
    ensures r.Err? ==> r.error == UnknownImputationMethod(how)
    ensures r.Ok? ==> r.value.names == t.names && r.value.height == t.height && r.value.cols.Keys == t.cols.Keys
    ensures r.Ok? ==> forall n :: n in t.cols && n !in cols ==> r.value.cols[n] == t.cols[n]
    ensures r.Ok? && ParseMethod(how).Some? ==>
      forall n :: n in cols && n in t.cols ==> r.value.cols[n] == ImputedColumn(t.cols[n], ParseMethod(how).value)
    ensures r.Ok? && ParseMethod(how).None? ==> r.value == t
    ensures r.Ok? ==> forall n :: n in t.cols && IsNumeric(t.cols[n]) ==> IsNumeric(r.value.cols[n])
  {
    match ParseMethod(how)
    case None =>
      if |PresentNames(t, cols)| > 0 then
        assert PresentNames(t, cols)[0] in cols;
        Err(UnknownImputationMethod(how))
      else Ok(t)
    case Some(m) =>
      Ok(WithColumns(t, FillLoop(t.cols, cols, m)))
  }

  /** The loop with a known method, on the table's columns: each present
      listed column filled in turn; a column listed twice is filled once, as
      filling is idempotent. */
  function FillLoop(cs: map<string, Column>, cols: seq<string>, m: Method): (rs: map<string, Column>)
    requires forall n :: n in cols && n in cs ==> IsNumeric(cs[n])
    ensures rs.Keys == cs.Keys
    ensures forall n :: n in cs ==> |rs[n]| == |cs[n]| && (IsNumeric(cs[n]) ==> IsNumeric(rs[n]))
    ensures forall n :: n in cs && n !in cols ==> rs[n] == cs[n]
    ensures forall n :: n in cols && n in cs ==> rs[n] == ImputedColumn(cs[n], m)
    decreases |cols|
  {
    if |cols| == 0 then cs
    else
      InTail(cols);
      if cols[0] !in cs then FillLoop(cs, cols[1..], m)
      else
        var cs1 := cs[cols[0] := ImputedColumn(cs[cols[0]], m)];
        var rs := FillLoop(cs1, cols[1..], m);
        ImputeLoopStep(cs, cs1, cols, m, rs);
        rs
  }

  /** The inductive step of `FillLoop`, once the first column is filled;
      `cs`, `cs1` and `rs` are the columns before, after the first step, and at
      the end. */
  lemma ImputeLoopStep(cs: map<string, Column>, cs1: map<string, Column>, cols: seq<string>, m: Method,
                       rs: map<string, Column>)
    requires |cols| > 0 && cols[0] in cs
    requires forall n :: n in cols && n in cs ==> IsNumeric(cs[n])
    requires cs1 == cs[cols[0] := ImputedColumn(cs[cols[0]], m)] && rs.Keys == cs1.Keys
    requires forall n :: n in cs1 && n !in cols[1..] ==> rs[n] == cs1[n]
    requires forall n :: n in cols[1..] && n in cs1 ==> IsNumeric(cs1[n]) && rs[n] == ImputedColumn(cs1[n], m)
    requires forall n :: n in cs1 ==> |rs[n]| == |cs1[n]| && (IsNumeric(cs1[n]) ==> IsNumeric(rs[n]))
    ensures forall n :: n in cols && n in cs ==> rs[n] == ImputedColumn(cs[n], m)
    ensures forall n :: n in cs && n !in cols ==> rs[n] == cs[n]
    ensures forall n :: n in cs ==> |rs[n]| == |cs[n]| && (IsNumeric(cs[n]) ==> IsNumeric(rs[n]))
  {
    InTail(cols);
    forall n | n in cols && n in cs
      ensures rs[n] == ImputedColumn(cs[n], m)
    {
      if n == cols[0] && n in cols[1..] {
        ImputedColumnIdempotent(cs[n], m);
      }
    }
  }

  /** `impute_missing_values(columns, method)`: `columns = None` means every
      numeric column; on success the working table becomes the result. */
  function Impute(s: State, columns: Option<seq<string>>, how: string): (r: Result<State, Error>)
    requires NumericWherePresent(s.df, columns.GetOr(NumericColumns(s.df)))
    ensures r.Err? <==>
      ParseMethod(how).None? && exists n :: n in columns.GetOr(NumericColumns(s.df)) && n in s.df.cols
    ensures r.Ok? ==> r.value.cleaned == s.cleaned && r.value.outlierFlags == s.outlierFlags && r.value.stats == s.stats
    ensures r.Ok? ==> ImputeLoop(s.df, columns.GetOr(NumericColumns(s.df)), how) == Ok(r.value.df)
  {
    var cols := columns.GetOr(NumericColumns(s.df));
    match ImputeLoop(s.df, cols, how)
    case Ok(t) => Ok(s.(df := t))
    case Err(e) => Err(e)
  }

  // ---------------------------------------------------------------------
  // detect_outliers

  /** scipy's |z| > threshold with z = (x - mean) / population sd, written
      without the square root: a column of equal values has sd 0, every z is
      NaN and nothing is flagged. */
  predicate IsOutlier(x: real, mean: real, variance: real, z: real)
    ensures variance <= 0.0 ==> !IsOutlier(x, mean, variance, z)
    ensures variance > 0.0 && z < 0.0 ==> IsOutlier(x, mean, variance, z)
  {
    variance > 0.0 && (z < 0.0 || Sq(x - mean) > z * z * variance)
  }

  /** The rows of one column that `detect_outliers` flags. A single null
      makes scipy's zscore NaN for the whole column, so nothing is flagged. */
  function OutlierMask(c: Column, z: real): (mask: seq<bool>)
    requires IsNumeric(c)
    ensures |mask| == |c|
    ensures NullCount(c) > 0 ==> forall i :: 0 <= i < |c| ==> !mask[i]
    ensures NullCount(c) == 0 && |c| > 0 ==> forall i :: 0 <= i < |c| ==>
      (mask[i] <==> IsOutlier(c[i].x, Stats.Mean(Values(c)), PopVariance(Values(c)), z))
  {
    if NullCount(c) > 0 || |c| == 0 then seq(|c|, i => false)
    else
      var vs := Values(c);
      var m := Stats.Mean(vs);
      var v := PopVariance(vs);
      seq(|c|, i requires 0 <= i < |c| => IsOutlier(c[i].x, m, v, z))
  }

  /** The squared test agrees with |x - mean| / sd > z when sd is the
      square root of a positive variance. */
  lemma IsOutlierZScore(x: real, mean: real, variance: real, sd: real, z: real)
    requires variance > 0.0 && sd >= 0.0 && sd * sd == variance && z >= 0.0
    ensures IsOutlier(x, mean, variance, z) <==> Abs(x - mean) / sd > z
  {
    ZScoreSquared(x, mean, variance, sd, z);
  }

  /** A value equal to the mean is not an outlier for a threshold >= 0. */
  lemma NotOutlierAtMean(mean: real, variance: real, z: real)
    requires z >= 0.0
    ensures !IsOutlier(mean, mean, variance, z)
  {
    if variance > 0.0 {
      assert Sq(mean - mean) == 0.0;
      MulNonNeg(z, z);
      MulNonNeg(z * z, variance);
    }
  }

  /** A value equal to the column mean is never an outlier for a
      non-negative threshold. */
  lemma MeanNeverFlagged(c: Column, z: real, i: int)
    requires IsNumeric(c) && 0 <= i < |c| && |Values(c)| > 0 && z >= 0.0
    requires c[i] == Num(Stats.Mean(Values(c)))
    ensures !OutlierMask(c, z)[i]
  {
    if NullCount(c) == 0 {
      NotOutlierAtMean(Stats.Mean(Values(c)), PopVariance(Values(c)), z);
    }
  }

  /** Some processed column flags row i. */
  predicate FlaggedBy(t: Table, cols: seq<string>, z: real, i: int)
    requires NumericWherePresent(t, cols) && 0 <= i < t.height
  {
    exists k :: 0 <= k < |cols| && cols[k] in t.cols && OutlierMask(t.cols[cols[k]], z)[i]
  }

  /** Which rows some processed column flags. */
  function FlaggedRows(t: Table, cols: seq<string>, z: real): (f: seq<bool>)
    requires NumericWherePresent(t, cols)
    ensures |f| == t.height && forall i :: 0 <= i < t.height ==> (f[i] <==> FlaggedBy(t, cols, z, i))
  {
    seq(t.height, i requires 0 <= i < t.height => FlaggedBy(t, cols, z, i))
  }

  /** The entry `outlier_flags[col]`: how many rows the column flags, and
      that count as a percentage of the rows. */
  function ColumnStat(t: Table, n: string, z: real): (st: OutlierStat)
    requires n in t.cols && IsNumeric(t.cols[n])
    ensures st.count <= t.height
    ensures NullCount(t.cols[n]) > 0 ==> st.count == 0
    ensures st.percentage.Some? <==> t.height > 0
    ensures st.percentage.Some? ==> 0.0 <= st.percentage.value <= 100.0
    ensures st.count == 0 <==> forall i :: 0 <= i < t.height ==> !OutlierMask(t.cols[n], z)[i]
  {
    var k := CountTrue(OutlierMask(t.cols[n], z));
    OutlierStat(k, Percent(k, t.height))
  }

  /** The loop of `detect_outliers` (lines 136-155): the running flags are
      or-ed with each present column's mask and the column's statistics are
      written into the accumulated dict. */
  function FlagScan(t: Table, cols: seq<string>, z: real, flags: seq<bool>, acc: map<string, OutlierStat>)
    : (r: (seq<bool>, map<string, OutlierStat>))
    requires |flags| == t.height && NumericWherePresent(t, cols)
    ensures |r.0| == t.height
    ensures forall i :: 0 <= i < t.height ==> (r.0[i] <==> flags[i] || FlaggedBy(t, cols, z, i))
    ensures forall n :: n in r.1 <==> n in acc || (n in cols && n in t.cols)
    ensures forall n :: n in cols && n in t.cols ==> r.1[n] == ColumnStat(t, n, z)
    ensures forall n :: n in acc && !(n in cols && n in t.cols) ==> r.1[n] == acc[n]
    decreases |cols|
  {
    if |cols| == 0 then (flags, acc)
    else
      var rest := cols[1..];
      FlaggedByTail(t, cols, z);
      if cols[0] !in t.cols then
        FlagScan(t, rest, z, flags, acc)
      else
        var mask := OutlierMask(t.cols[cols[0]], z);
        var flags' := seq(|flags|, i requires 0 <= i < |flags| => flags[i] || mask[i]);
        FlagScan(t, rest, z, flags', acc[cols[0] := ColumnStat(t, cols[0], z)])
  }

  /** A row is flagged by a list of columns when the first column, if
      present, flags it or the rest of the list does. */
  lemma FlaggedByTail(t: Table, cols: seq<string>, z: real)
    requires |cols| > 0 && NumericWherePresent(t, cols)
    ensures NumericWherePresent(t, cols[1..])
    ensures forall n :: n in cols <==> n == cols[0] || n in cols[1..]
    ensures forall i :: 0 <= i < t.height ==>
      (FlaggedBy(t, cols, z, i) <==>
        (cols[0] in t.cols && OutlierMask(t.cols[cols[0]], z)[i]) || FlaggedBy(t, cols[1..], z, i))
  {
    var rest := cols[1..];
    assert cols == [cols[0]] + rest;
    forall i | 0 <= i < t.height && FlaggedBy(t, rest, z, i)
      ensures FlaggedBy(t, cols, z, i)
    {
      var k :| 0 <= k < |rest| && rest[k] in t.cols && OutlierMask(t.cols[rest[k]], z)[i];
      assert cols[k + 1] == rest[k];
    }
    forall i | 0 <= i < t.height && FlaggedBy(t, cols, z, i) && !(cols[0] in t.cols && OutlierMask(t.cols[cols[0]], z)[i])
      ensures FlaggedBy(t, rest, z, i)
    {
      var k :| 0 <= k < |cols| && cols[k] in t.cols && OutlierMask(t.cols[cols[k]], z)[i];
      assert k > 0 && rest[k - 1] == cols[k];
    }
  }

  function Flags(bs: seq<bool>): (c: Column)
    ensures |c| == |bs| && forall i :: 0 <= i < |bs| ==> c[i] == Flag(bs[i])
  {
    seq(|bs|, i requires 0 <= i < |bs| => Flag(bs[i]))
  }

  /** `detect_outliers(columns, threshold)`: the flag column is reset to
      False, then each present listed column or-s its mask into it and records
      its count and percentage; other columns and earlier entries stay. */
  function DetectOutliers(s: State, cols: seq<string>, z: real): (r: State)
    requires NumericWherePresent(s.df, cols) && FlagColumn !in cols
    ensures r.df.height == s.df.height
    ensures r.df.cols.Keys == s.df.cols.Keys + {FlagColumn}
    ensures FlagColumn in s.df.cols ==> r.df.names == s.df.names
    ensures FlagColumn !in s.df.cols ==> r.df.names == s.df.names + [FlagColumn]
    ensures forall n :: n in s.df.cols && n != FlagColumn ==> r.df.cols[n] == s.df.cols[n]
    ensures forall i :: 0 <= i < s.df.height ==> r.df.cols[FlagColumn][i] == Flag(FlaggedBy(s.df, cols, z, i))
    ensures forall n :: n in r.outlierFlags <==> n in s.outlierFlags || (n in cols && n in s.df.cols)
    ensures forall n :: n in cols && n in s.df.cols ==> r.outlierFlags[n] == ColumnStat(s.df, n, z)
    ensures forall n :: n in s.outlierFlags && !(n in cols && n in s.df.cols) ==> r.outlierFlags[n] == s.outlierFlags[n]
    ensures r.cleaned == s.cleaned && r.stats == s.stats
  {
    var scan := ResetAndScan(s.df, cols, z, s.outlierFlags);
    s.(df := WithFlags(s.df, scan.0), outlierFlags := scan.1)
  }

  /** Lines 130-155: the flag column reset to False, then the loop over the
      columns. The flags it returns replace the reset column, which leaves
      the same table as setting the column once. */
  function ResetAndScan(t: Table, cols: seq<string>, z: real, acc: map<string, OutlierStat>)
    : (r: (seq<bool>, map<string, OutlierStat>))
    requires NumericWherePresent(t, cols) && FlagColumn !in cols
    ensures |r.0| == t.height
    ensures forall i :: 0 <= i < t.height ==> (r.0[i] <==> FlaggedBy(t, cols, z, i))
    ensures forall n :: n in r.1 <==> n in acc || (n in cols && n in t.cols)
    ensures forall n :: n in cols && n in t.cols ==> r.1[n] == ColumnStat(t, n, z)
    ensures forall n :: n in acc && !(n in cols && n in t.cols) ==> r.1[n] == acc[n]
  {
    var base := WithFlags(t, seq(t.height, i => false));
    FlaggedByBase(t, base, cols, z);
    FlagScan(base, cols, z, seq(t.height, i => false), acc)
  }

  /** `self.df['Outlier_Flag'] = flags`: the flag column set (the first time
      appended), the other columns untouched. */
  function WithFlags(t: Table, flags: seq<bool>): (r: Table)
    requires |flags| == t.height
    ensures r.height == t.height && r.cols.Keys == t.cols.Keys + {FlagColumn}
    ensures r.names == if FlagColumn in t.cols then t.names else t.names + [FlagColumn]
    ensures forall n :: n in t.cols && n != FlagColumn ==> r.cols[n] == t.cols[n]
    ensures forall i :: 0 <= i < t.height ==> r.cols[FlagColumn][i] == Flag(flags[i])
  {
    WithColumn(t, FlagColumn, Flags(flags))
  }

  lemma FlaggedByBase(t: Table, base: Table, cols: seq<string>, z: real)
    requires NumericWherePresent(t, cols) && FlagColumn !in cols && base.height == t.height
    requires base.cols.Keys == t.cols.Keys + {FlagColumn}
    requires forall n :: n in t.cols && n != FlagColumn ==> base.cols[n] == t.cols[n]
    ensures NumericWherePresent(base, cols)
    ensures forall i :: 0 <= i < t.height ==> (FlaggedBy(base, cols, z, i) <==> FlaggedBy(t, cols, z, i))
    ensures forall n :: n in cols && n in t.cols ==> ColumnStat(base, n, z) == ColumnStat(t, n, z)
  {
  }

  // ---------------------------------------------------------------------
  // cap_outliers

  datatype Band = Band(lo: real, hi: real)

  /** The clip bounds mean - z*sd and mean + z*sd. pandas' clip swaps a
      reversed pair of scalar bounds, so the band is always ordered. */
  function CapBand(mean: real, sd: real, z: real): (b: Band)
    ensures b.lo <= b.hi
    ensures {b.lo, b.hi} == {mean - z * sd, mean + z * sd}
  {
    var lo, hi := mean - z * sd, mean + z * sd;
    if lo <= hi then Band(lo, hi) else Band(hi, lo)
  }

  /** When z * sd is not negative the band is mean -/+ z * sd itself. */
  lemma CapBandOrdered(mean: real, sd: real, z: real)
    requires z >= 0.0 && sd >= 0.0
    ensures CapBand(mean, sd, z) == Band(mean - z * sd, mean + z * sd)
  {
    MulNonNeg(z, sd);
  }

  /** The bounds of one column, from the mean and the sample standard
      deviation (ddof = 1) of its non-null values. With fewer than two values
      the deviation is NaN, and pandas' clip ignores NaN bounds: no band. */
  function ColumnBand(c: Column, z: real, root: real -> real): (b: Option<Band>)
    requires IsNumeric(c)
    ensures b.Some? <==> |Values(c)| >= 2
    ensures b.Some? ==> b.value.lo <= b.value.hi
  {
    var vs := Values(c);
    if |vs| < 2 then None
    else Some(CapBand(Stats.Mean(vs), root(SampleVariance(vs)), z))
  }

  /** `Series.clip(lower, upper)`: every number ends inside the band, numbers
      already inside it stay, the others move to the nearest bound, and nulls
      stay null. */
  function ClampColumn(c: Column, b: Band): (r: Column)
    requires b.lo <= b.hi
    ensures |r| == |c|
    ensures forall i :: 0 <= i < |c| && !c[i].Num? ==> r[i] == c[i]
    ensures forall i :: 0 <= i < |c| && c[i].Num? ==> r[i].Num? && b.lo <= r[i].x <= b.hi
    ensures forall i :: 0 <= i < |c| && c[i].Num? && b.lo <= c[i].x <= b.hi ==> r[i] == c[i]
    ensures forall i :: 0 <= i < |c| && c[i].Num? && c[i].x < b.lo ==> r[i] == Num(b.lo)
    ensures forall i :: 0 <= i < |c| && c[i].Num? && c[i].x > b.hi ==> r[i] == Num(b.hi)
  {
    seq(|c|, i requires 0 <= i < |c| => if c[i].Num? then Num(Clamp(c[i].x, b.lo, b.hi)) else c[i])
  }

  /** Clipping a clipped column to the same band changes nothing. */
  lemma ClampColumnIdempotent(c: Column, b: Band)
    requires b.lo <= b.hi
    ensures ClampColumn(ClampColumn(c, b), b) == ClampColumn(c, b)
  {
  }

  /** One pass of the loop body of `cap_outliers` over column c. */
  function CapColumn(c: Column, z: real, root: real -> real): (r: Column)
    requires IsNumeric(c)
    ensures |r| == |c| && IsNumeric(r)
    ensures forall i :: 0 <= i < |c| ==> (r[i] == Null <==> c[i] == Null)
    ensures |Values(c)| < 2 ==> r == c
  {
    match ColumnBand(c, z, root)
    case None => c
    case Some(b) => ClampColumn(c, b)
  }

  /** Winsorizing: with a non-negative threshold and deviation, every number
      of a capped column lies within mean -/+ z * sd of the original column,
      and numbers already within that range are unchanged. */
  lemma CapColumnWithinBand(c: Column, z: real, root: real -> real, i: int)
    requires IsNumeric(c) && |Values(c)| >= 2 && 0 <= i < |c| && c[i].Num?
    requires z >= 0.0 && root(SampleVariance(Values(c))) >= 0.0
    ensures var m, sd := Stats.Mean(Values(c)), root(SampleVariance(Values(c)));
      && CapColumn(c, z, root)[i].Num?
      && m - z * sd <= CapColumn(c, z, root)[i].x <= m + z * sd
      && (m - z * sd <= c[i].x <= m + z * sd ==> CapColumn(c, z, root)[i] == c[i])
  {
    CapBandOrdered(Stats.Mean(Values(c)), root(SampleVariance(Values(c))), z);
  }

  /** Column c capped k times over, as when it is listed k times. */
  function CapTimes(c: Column, k: nat, z: real, root: real -> real): (r: Column)
    requires IsNumeric(c)
    ensures |r| == |c| && IsNumeric(r)
    ensures forall i :: 0 <= i < |c| ==> (r[i] == Null <==> c[i] == Null)
    decreases k
  {
    if k == 0 then c else CapTimes(CapColumn(c, z, root), k - 1, z, root)
  }

  /** The loop of `cap_outliers` (lines 183-203): each present listed column
      is capped with the statistics of its current values. */
  function CapScan(cs: map<string, Column>, cols: seq<string>, z: real, root: real -> real): (rs: map<string, Column>)
    requires forall n :: n in cols && n in cs ==> IsNumeric(cs[n])
    ensures rs.Keys == cs.Keys
    ensures forall n :: n in cs && n !in cols ==> rs[n] == cs[n]
    ensures forall n :: n in cs && n in cols ==> rs[n] == CapTimes(cs[n], multiset(cols)[n], z, root)
    decreases |cols|
  {
    if |cols| == 0 then cs
    else
      InTail(cols);
      if cols[0] !in cs then
        var rs := CapScan(cs, cols[1..], z, root);
        CapScanSkip(cs, cols, z, root, rs);
        rs
      else
        var cs1 := cs[cols[0] := CapColumn(cs[cols[0]], z, root)];
        var rs := CapScan(cs1, cols[1..], z, root);
        CapScanStep(cs, cs1, cols, z, root, rs);
        rs
  }

  /** How often a name is listed, split into the head and the tail of the list. */
  lemma ListedTail(cols: seq<string>, n: string)
    requires |cols| > 0
    ensures multiset(cols)[n] == multiset(cols[1..])[n] + (if n == cols[0] then 1 else 0)
    ensures n in cols <==> n == cols[0] || n in cols[1..]
  {
    assert cols == [cols[0]] + cols[1..];
  }

  /** The inductive step of `CapScan` when the first name is not a column. */
  lemma CapScanSkip(cs: map<string, Column>, cols: seq<string>, z: real, root: real -> real, rs: map<string, Column>)
    requires |cols| > 0 && cols[0] !in cs && rs.Keys == cs.Keys
    requires forall n :: n in cols && n in cs ==> IsNumeric(cs[n])
    requires forall n :: n in cs && n in cols[1..] ==> rs[n] == CapTimes(cs[n], multiset(cols[1..])[n], z, root)
    ensures forall n :: n in cs && n in cols ==> rs[n] == CapTimes(cs[n], multiset(cols)[n], z, root)
  {
    forall n | n in cs && n in cols
      ensures rs[n] == CapTimes(cs[n], multiset(cols)[n], z, root)
    {
      ListedTail(cols, n);
    }
  }

  /** The inductive step of `CapScan`, once the first column is capped; `m`,
      `m1` and `rm` are the columns before, after the first step, and at the
      end. */
  lemma CapScanStep(m: map<string, Column>, m1: map<string, Column>, cols: seq<string>, z: real, root: real -> real,
                    rm: map<string, Column>)
    requires |cols| > 0 && cols[0] in m && IsNumeric(m[cols[0]])
    requires forall n :: n in cols && n in m ==> IsNumeric(m[n])
    requires m1 == m[cols[0] := CapColumn(m[cols[0]], z, root)] && rm.Keys == m1.Keys
    requires forall n :: n in m1 && n !in cols[1..] ==> rm[n] == m1[n]
    requires forall n :: n in m1 && n in cols[1..] ==> rm[n] == CapTimes(m1[n], multiset(cols[1..])[n], z, root)
    ensures forall n :: n in m && n in cols ==> rm[n] == CapTimes(m[n], multiset(cols)[n], z, root)
  {
    forall n | n in m && n in cols
      ensures rm[n] == CapTimes(m[n], multiset(cols)[n], z, root)
    {
      ListedTail(cols, n);
      CapScanStepAt(m[n], m1[n], rm[n], n == cols[0], n in cols[1..], multiset(cols[1..])[n], z, root);
    }
  }

  /** One column of the inductive step of `CapScan`: `first` says whether it
      was capped first, `k` how often the tail lists it. */
  lemma CapScanStepAt(c: Column, c1: Column, rc: Column, first: bool, inRest: bool, k: nat, z: real, root: real -> real)
    requires IsNumeric(c) && (first || inRest)
    requires c1 == if first then CapColumn(c, z, root) else c
    requires inRest ==> rc == CapTimes(c1, k, z, root)
    requires !inRest ==> rc == c1 && k == 0
    ensures rc == CapTimes(c, k + (if first then 1 else 0), z, root)
  {
    if first && !inRest {
      assert CapTimes(c, 1, z, root) == CapTimes(CapColumn(c, z, root), 0, z, root);
    }
  }

  /** `cap_outliers(columns, threshold)`: the capped copy becomes the cleaned
      table; the working table is left as it was. A column listed once is
      Winsorized with its own statistics, an unlisted one is unchanged. */
  function CapOutliers(s: State, cols: seq<string>, z: real, root: real -> real): (r: State)
    requires NumericWherePresent(s.df, cols)
    ensures r.df == s.df && r.outlierFlags == s.outlierFlags && r.stats == s.stats
    ensures r.cleaned.Some?
    ensures r.cleaned.value.names == s.df.names && r.cleaned.value.height == s.df.height
    ensures r.cleaned.value.cols.Keys == s.df.cols.Keys
    ensures forall n :: n in s.df.cols && n !in cols ==> r.cleaned.value.cols[n] == s.df.cols[n]
    ensures forall n :: n in s.df.cols && multiset(cols)[n] == 1 ==>
      r.cleaned.value.cols[n] == CapColumn(s.df.cols[n], z, root)
    ensures forall n, i :: n in s.df.cols && 0 <= i < s.df.height ==>
      (r.cleaned.value.cols[n][i] == Null <==> s.df.cols[n][i] == Null)
  {
    var cs := CapScan(s.df.cols, cols, z, root);
    assert forall n :: n in s.df.cols && multiset(cols)[n] == 1 ==> n in cols;
    assert forall n :: n in cs ==> |cs[n]| == |s.df.cols[n]|;
    s.(cleaned := Some(WithColumns(s.df, cs)))
  }

  // ---------------------------------------------------------------------
  // clean, get_cleaning_report, clean_solar_data

  /** What `clean` needs of its arguments: the columns it imputes and the
      columns it checks hold numbers where present, and the flag column is not
      itself checked. */
  predicate CleanReady(df: Table, numericColumns: Option<seq<string>>, outlierColumns: Option<seq<string>>)
  {
    var ic := numericColumns.GetOr(NumericColumns(df));
    NumericWherePresent(df, ic)
    && NumericWherePresent(df, outlierColumns.GetOr(ic))
    && FlagColumn !in outlierColumns.GetOr(ic)
  }

  /** Number of rows whose flag is True (`df['Outlier_Flag'].sum()`). */
  function FlagTotal(c: Column): (k: nat)
    ensures k <= |c|
    ensures k == 0 <==> forall i :: 0 <= i < |c| ==> c[i] != Flag(true)
  {
    if |c| == 0 then 0
    else (if c[|c| - 1] == Flag(true) then 1 else 0) + FlagTotal(c[..|c| - 1])
  }

  /** `clean(...)`: census with the default threshold, imputation, flagging
      and capping, then the statistics. On an unknown method the census has
      already been stored when the error is raised. */
  function Clean(s: State, numericColumns: Option<seq<string>>, outlierColumns: Option<seq<string>>,
                 how: string, z: real, root: real -> real): (r: (State, Result<Table, Error>))
    requires CleanReady(s.df, numericColumns, outlierColumns)
    ensures r.0.stats.missingValues == Some(DetectMissingValues(s, DefaultMissingThreshold))
    ensures r.1.Err? <==>
      ParseMethod(how).None? && exists n :: n in numericColumns.GetOr(NumericColumns(s.df)) && n in s.df.cols
    ensures r.1.Err? ==> r.0.df == s.df && r.0.cleaned == s.cleaned && r.0.outlierFlags == s.outlierFlags
    ensures r.1.Ok? ==> r.0.cleaned == Some(r.1.value) && r.0.stats.outliersLinked
    ensures r.1.Ok? ==> r.1.value.height == s.df.height && FlagColumn in r.0.df.cols
    ensures r.1.Ok? ==> r.0.stats.totalOutliers == Some(FlagTotal(r.0.df.cols[FlagColumn]))
  {
    var missing := DetectMissingValues(s, DefaultMissingThreshold);
    var s1 := s.(stats := s.stats.(missingValues := Some(missing)));
    var ic := numericColumns.GetOr(NumericColumns(s.df));
    ImputeThenCap(s1, ic, outlierColumns.GetOr(ic), how, z, root)
  }

  /** `clean` after the census: imputation, then flagging and capping. */
  function ImputeThenCap(s: State, ic: seq<string>, oc: seq<string>, how: string, z: real, root: real -> real)
    : (r: (State, Result<Table, Error>))
    requires NumericWherePresent(s.df, ic) && NumericWherePresent(s.df, oc) && FlagColumn !in oc
    ensures r.0.stats.missingValues == s.stats.missingValues
    ensures r.1.Err? <==> ParseMethod(how).None? && exists n :: n in ic && n in s.df.cols
    ensures r.1.Err? ==> r.0 == s
    ensures r.1.Ok? ==> r.0.cleaned == Some(r.1.value) && r.0.stats.outliersLinked
    ensures r.1.Ok? ==> r.1.value.height == s.df.height && FlagColumn in r.0.df.cols
    ensures r.1.Ok? ==> r.0.stats.totalOutliers == Some(FlagTotal(r.0.df.cols[FlagColumn]))
  {
    match Impute(s, Some(ic), how)
    case Err(e) => (s, Err(e))
    case Ok(s2) =>
      ImputedStillNumeric(s.df, ic, how, s2.df, oc);
      var s3 := FlagAndCap(s2, oc, z, root);
      (s3, Ok(s3.cleaned.value))
  }

  /** Imputation keeps the table's shape, and columns that held numbers
      still do. */
  lemma ImputedStillNumeric(t: Table, ic: seq<string>, how: string, t2: Table, oc: seq<string>)
    requires NumericWherePresent(t, ic) && NumericWherePresent(t, oc)
    requires ImputeLoop(t, ic, how) == Ok(t2)
    ensures NumericWherePresent(t2, oc) && t2.height == t.height && t2.cols.Keys == t.cols.Keys
  {
  }

  /** The second half of `clean` (lines 245-251), after imputation. */
  function FlagAndCap(s: State, oc: seq<string>, z: real, root: real -> real): (r: State)
    requires NumericWherePresent(s.df, oc) && FlagColumn !in oc
    ensures r.df == DetectOutliers(s, oc, z).df
    ensures r.cleaned == CapOutliers(DetectOutliers(s, oc, z), oc, z, root).cleaned
    ensures r.cleaned.Some? && r.cleaned.value.height == s.df.height
    ensures FlagColumn in r.df.cols && r.stats.outliersLinked
    ensures r.stats.totalOutliers == Some(FlagTotal(r.df.cols[FlagColumn]))
    ensures r.stats.missingValues == s.stats.missingValues
  {
    var s3 := DetectOutliers(s, oc, z);
    var s4 := CapOutliers(s3, oc, z, root);
    var total := FlagTotal(s4.df.cols[FlagColumn]);
    s4.(stats := s4.stats.(outliersLinked := true, totalOutliers := Some(total)))
  }

  /** `get_cleaning_report()`: the stored statistics, with the 'outliers'
      entry read through its alias of `outlier_flags`. */
  function GetCleaningReport(s: State): (rep: Report)
    ensures rep.missingValues == s.stats.missingValues && rep.totalOutliers == s.stats.totalOutliers
    ensures rep.outliers.Some? <==> s.stats.outliersLinked
    ensures s.stats.outliersLinked ==> rep.outliers.value == s.outlierFlags
  {
    Report(s.stats.missingValues, if s.stats.outliersLinked then Some(s.outlierFlags) else None, s.stats.totalOutliers)
  }

  /** `clean_solar_data(...)`: a fresh cleaner, `clean`, and its report. */
  function CleanSolarData(df: Table, numericColumns: Option<seq<string>>, outlierColumns: Option<seq<string>>,
                          how: string, z: real, root: real -> real): (r: Result<(Table, Report), Error>)
    requires CleanReady(df, numericColumns, outlierColumns)
    ensures r.Err? <==>
      ParseMethod(how).None? && exists n :: n in numericColumns.GetOr(NumericColumns(df)) && n in df.cols
    ensures r.Ok? ==> r.value.0.height == df.height
    ensures r.Ok? ==> r.value.1.missingValues.Some? && r.value.1.outliers.Some? && r.value.1.totalOutliers.Some?
    ensures r.Ok? ==> r.value.1.totalOutliers.value <= df.height
  {
    var (s, out) := Clean(Init(df), numericColumns, outlierColumns, how, z, root);
    match out
    case Err(e) => Err(e)
    case Ok(t) => Ok((t, GetCleaningReport(s)))
  }

  // ---------------------------------------------------------------------
  // Properties of the whole pipeline

  /** Summing a boolean flag column counts its True rows. */
  lemma {:induction false} FlagTotalCounts(bs: seq<bool>)
    ensures FlagTotal(Flags(bs)) == CountTrue(bs)
  {
    if |bs| > 0 {
      var n := |bs| - 1;
      assert Flags(bs)[..n] == Flags(bs[..n]);
      FlagTotalCounts(bs[..n]);
    }
  }

  /** The table `ImputeLoop` produces inside a successful `clean`. */
  function Imputed(s: State, numericColumns: Option<seq<string>>, how: string): (t: Table)
    requires NumericWherePresent(s.df, numericColumns.GetOr(NumericColumns(s.df))) && ParseMethod(how).Some?
    ensures t.height == s.df.height && t.cols.Keys == s.df.cols.Keys
    ensures forall n :: n in s.df.cols && IsNumeric(s.df.cols[n]) ==> IsNumeric(t.cols[n])
  {
    var ic := numericColumns.GetOr(NumericColumns(s.df));
    ImputeLoop(s.df, ic, how).value
  }

  /** The state `clean` has reached once imputation succeeded. */
  function ImputedState(s: State, numericColumns: Option<seq<string>>, how: string): (r: State)
    requires NumericWherePresent(s.df, numericColumns.GetOr(NumericColumns(s.df))) && ParseMethod(how).Some?
    ensures r.df.cols.Keys == s.df.cols.Keys && r.df.height == s.df.height
  {
    s.(stats := s.stats.(missingValues := Some(DetectMissingValues(s, DefaultMissingThreshold))),
       df := Imputed(s, numericColumns, how))
  }

  /** With a known method, `clean` succeeds and is flagging and capping of
      the imputed state. */
  lemma CleanSucceeds(s: State, numericColumns: Option<seq<string>>, outlierColumns: Option<seq<string>>,
                      how: string, z: real, root: real -> real)
    requires CleanReady(s.df, numericColumns, outlierColumns) && ParseMethod(how).Some?
    ensures var oc := outlierColumns.GetOr(numericColumns.GetOr(NumericColumns(s.df)));
      NumericWherePresent(ImputedState(s, numericColumns, how).df, oc) && FlagColumn !in oc
    ensures var oc := outlierColumns.GetOr(numericColumns.GetOr(NumericColumns(s.df)));
      var s5 := FlagAndCap(ImputedState(s, numericColumns, how), oc, z, root);
      Clean(s, numericColumns, outlierColumns, how, z, root) == (s5, Ok(s5.cleaned.value))
  {
    var ic := numericColumns.GetOr(NumericColumns(s.df));
    var oc := outlierColumns.GetOr(ic);
    var t := Imputed(s, numericColumns, how);
    assert forall k :: k in oc && k in t.cols ==> IsNumeric(s.df.cols[k]);
  }

  /** After a successful `clean`, every imputed column that had a number
      (every imputed column, with the mode) holds no null. */
  lemma CleanFillsImputedColumns(s: State, numericColumns: Option<seq<string>>, outlierColumns: Option<seq<string>>,
                                 how: string, z: real, root: real -> real, n: string)
    requires CleanReady(s.df, numericColumns, outlierColumns) && ParseMethod(how).Some?
    requires n in numericColumns.GetOr(NumericColumns(s.df)) && n in s.df.cols && n != FlagColumn
    requires ParseMethod(how).value == Mode || |Values(s.df.cols[n])| > 0
    ensures Clean(s, numericColumns, outlierColumns, how, z, root).1.Ok?
    ensures n in Clean(s, numericColumns, outlierColumns, how, z, root).1.value.cols
    ensures NullCount(Clean(s, numericColumns, outlierColumns, how, z, root).1.value.cols[n]) == 0
  {
    var oc := outlierColumns.GetOr(numericColumns.GetOr(NumericColumns(s.df)));
    CleanSucceeds(s, numericColumns, outlierColumns, how, z, root);
    var s2 := ImputedState(s, numericColumns, how);
    assert s2.df.cols[n] == ImputedColumn(s.df.cols[n], ParseMethod(how).value);
    ImputedColumnComplete(s.df.cols[n], ParseMethod(how).value);
    var s3 := DetectOutliers(s2, oc, z);
    assert s3.df.cols[n] == s2.df.cols[n];
    var out := CapOutliers(s3, oc, z, root).cleaned.value;
    NullFreeKept(s3.df.cols[n], out.cols[n]);
  }

  lemma NullFreeKept(a: Column, b: Column)
    requires |a| == |b| && NullCount(a) == 0
    requires forall i :: 0 <= i < |a| ==> (b[i] == Null <==> a[i] == Null)
    ensures NullCount(b) == 0
  {
  }

  /** The flag column `detect_outliers` writes sums to the number of rows
      some checked column flags. */
  lemma DetectOutliersTotal(s: State, cols: seq<string>, z: real)
    requires NumericWherePresent(s.df, cols) && FlagColumn !in cols
    ensures FlagTotal(DetectOutliers(s, cols, z).df.cols[FlagColumn]) == CountTrue(FlaggedRows(s.df, cols, z))
  {
    var flags := FlaggedRows(s.df, cols, z);
    assert DetectOutliers(s, cols, z).df.cols[FlagColumn] == Flags(flags);
    FlagTotalCounts(flags);
  }

  /** The total stored by a successful `clean` is the number of rows that at
      least one checked column flags in the imputed table. */
  lemma CleanTotalCountsFlaggedRows(s: State, numericColumns: Option<seq<string>>, outlierColumns: Option<seq<string>>,
                                    how: string, z: real, root: real -> real)
    requires CleanReady(s.df, numericColumns, outlierColumns) && ParseMethod(how).Some?
    ensures NumericWherePresent(ImputedState(s, numericColumns, how).df, outlierColumns.GetOr(numericColumns.GetOr(NumericColumns(s.df))))
    ensures Clean(s, numericColumns, outlierColumns, how, z, root).0.stats.totalOutliers
      == Some(CountTrue(FlaggedRows(ImputedState(s, numericColumns, how).df, outlierColumns.GetOr(numericColumns.GetOr(NumericColumns(s.df))), z)))
  {
    var oc := outlierColumns.GetOr(numericColumns.GetOr(NumericColumns(s.df)));
    CleanSucceeds(s, numericColumns, outlierColumns, how, z, root);
    DetectOutliersTotal(ImputedState(s, numericColumns, how), oc, z);
  }
}
