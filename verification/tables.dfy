/** An in-memory table in the shape of a pandas DataFrame: an ordered list
    of distinct column names, one column of cells per name, and a row count.
    A cell is null (NaN/NaT/None), a number, a string, a boolean or a
    timestamp; timestamps are opaque ordered integers. */
module Tables {
  import opened Seqs

  datatype Cell = Null | Num(x: real) | Text(s: string) | Flag(b: bool) | Stamp(t: int)

  type Column = seq<Cell>

  datatype Frame = Frame(names: seq<string>, cols: map<string, Column>, height: nat)

  /** Names are distinct, name every column, and every column is as long as
      the table. */
  predicate WellFormed(f: Frame)
  {
    && Distinct(f.names)
    && (forall n :: n in f.names ==> n in f.cols)
    && (forall n :: n in f.cols ==> n in f.names)
    && (forall n :: n in f.cols ==> |f.cols[n]| == f.height)
  }

  type Table = f: Frame | WellFormed(f) witness Frame([], map[], 0)

  function Nulls(height: nat): (c: Column)
    ensures |c| == height
    ensures forall i :: 0 <= i < height ==> c[i] == Null
  {
    seq(height, _ => Null)
  }

  /** A column holding x in every row (a scalar assigned to a column). */
  function Constant(x: Cell, height: nat): (c: Column)
    ensures |c| == height
    ensures forall i :: 0 <= i < height ==> c[i] == x
  {
    seq(height, _ => x)
  }

  /** Number of null cells, what pandas' `isna().sum()` reports. */
  function NullCount(c: Column): (k: nat)
    ensures k == multiset(c)[Null]
    ensures k <= |c|
    ensures k == 0 <==> forall i :: 0 <= i < |c| ==> c[i] != Null
  {
    if |c| == 0 then 0
    else
      assert c == [c[0]] + c[1..];
      (if c[0] == Null then 1 else 0) + NullCount(c[1..])
  }

  /** A numeric column holds only numbers and nulls (a float dtype). */
  predicate IsNumeric(c: Column)
  {
    forall i :: 0 <= i < |c| ==> c[i].Null? || c[i].Num?
  }

  /** The numbers of a column in row order, nulls skipped: the series pandas
      reduces over when it computes mean, median, std, min, max or mode. */
  function Values(c: Column): (vs: seq<real>)
    ensures |vs| <= |c|
    ensures IsNumeric(c) ==> |vs| + NullCount(c) == |c|
    ensures forall v :: v in vs <==> Num(v) in c
  {
    if |c| == 0 then []
    else
      assert c == [c[0]] + c[1..];
      (if c[0].Num? then [c[0].x] else []) + Values(c[1..])
  }

  /** Every listed column that the table has holds numbers and nulls only:
      the reductions the code applies to it are those of a numeric pandas
      column. */
  predicate NumericWherePresent(t: Table, cols: seq<string>)
  {
    forall n :: n in cols && n in t.cols ==> IsNumeric(t.cols[n])
  }

  /** A datetime column holds only timestamps and nulls (NaT). */
  predicate IsTimeColumn(c: Column)
  {
    forall i :: 0 <= i < |c| ==> c[i].Null? || c[i].Stamp?
  }

  /** The timestamps of a column in row order, NaT skipped. */
  function Stamps(c: Column): (ts: seq<int>)
    ensures |ts| <= |c|
    ensures IsTimeColumn(c) ==> |ts| + NullCount(c) == |c|
    ensures forall v :: v in ts <==> Stamp(v) in c
  {
    if |c| == 0 then []
    else
      assert c == [c[0]] + c[1..];
      (if c[0].Stamp? then [c[0].t] else []) + Stamps(c[1..])
  }

  /** `df[n] = c`: replaces column n in place, or appends it as the last
      column when the table has none of that name. */
  function WithColumn(t: Table, n: string, c: Column): (r: Table)
    requires |c| == t.height
    ensures r.height == t.height
    ensures r.cols == t.cols[n := c]
    ensures r.names == if n in t.cols then t.names else t.names + [n]
  {
    Frame(if n in t.cols then t.names else t.names + [n], t.cols[n := c], t.height)
  }

  /** The table with its columns' contents replaced, names and height kept. */
  function WithColumns(t: Table, cs: map<string, Column>): (r: Table)
    requires cs.Keys == t.cols.Keys && forall n :: n in cs ==> |cs[n]| == |t.cols[n]|
    ensures r.names == t.names && r.height == t.height && r.cols == cs
  {
    Frame(t.names, cs, t.height)
  }

  /** The names of the numeric columns, in column order
      (`select_dtypes(include=[np.number]).columns`). */
  function NumericColumns(t: Table): (ns: seq<string>)
    ensures forall n :: n in ns <==> n in t.cols && IsNumeric(t.cols[n])
  {
    var mask := seq(|t.names|, i requires 0 <= i < |t.names| => IsNumeric(t.cols[t.names[i]]));
    var ns := Pick(t.names, mask);
    assert forall n :: n in ns <==> n in t.cols && IsNumeric(t.cols[n]) by {
      forall n
        ensures n in ns <==> n in t.cols && IsNumeric(t.cols[n])
      {
        PickMembers(t.names, mask, n);
      }
    }
    ns
  }

  /** The listed names the table has (the list filtered by `col in df.columns`), in list order. */
  function PresentNames(t: Table, ns: seq<string>): (r: seq<string>)
    ensures forall n :: n in r <==> n in ns && n in t.cols
  {
    if |ns| == 0 then []
    else (if ns[0] in t.cols then [ns[0]] else []) + PresentNames(t, ns[1..])
  }

  /** The listed names the table lacks, in list order. */
  function AbsentNames(t: Table, ns: seq<string>): (r: seq<string>)
    ensures forall n :: n in r <==> n in ns && n !in t.cols
    ensures |r| == 0 <==> forall n :: n in ns ==> n in t.cols
  {
    if |ns| == 0 then []
    else (if ns[0] !in t.cols then [ns[0]] else []) + AbsentNames(t, ns[1..])
  }

  /** The mask that keeps the names not in `ns`. */
  function Unlisted(names: seq<string>, ns: seq<string>): (mask: seq<bool>)
    ensures |mask| == |names| && forall i :: 0 <= i < |names| ==> (mask[i] <==> names[i] !in ns)
  {
    seq(|names|, i requires 0 <= i < |names| => names[i] !in ns)
  }

  /** `df.drop(columns=ns)` where every name of ns is a column. */
  function DropColumns(t: Table, ns: seq<string>): (r: Table)
    ensures r.height == t.height
    ensures forall n :: n in r.cols <==> n in t.cols && n !in ns
    ensures forall n :: n in r.cols ==> r.cols[n] == t.cols[n]
    ensures r.names == Pick(t.names, Unlisted(t.names, ns))
  {
    var mask := Unlisted(t.names, ns);
    var names := Pick(t.names, mask);
    var cols := map n | n in t.cols && n !in ns :: t.cols[n];
    PickDistinct(t.names, mask);
    forall n
      ensures n in names <==> n in cols
    {
      PickMembers(t.names, mask, n);
    }
    Frame(names, cols, t.height)
  }

  /** Column n of t, or an all-null column when t has none of that name:
      what pandas fills in when it concatenates tables with different
      columns. */
  function ColumnOrNulls(t: Table, n: string): (c: Column)
    ensures |c| == t.height
  {
    if n in t.cols then t.cols[n] else Nulls(t.height)
  }

  /** `df[mask]`: the rows whose mask entry is true, in their order. */
  function SelectRows(t: Table, keep: seq<bool>): (r: Table)
    requires |keep| == t.height
    ensures r.height == |Kept(keep)|
    ensures r.names == t.names
    ensures forall n :: n in r.cols <==> n in t.cols
    ensures forall n :: n in r.cols ==> r.cols[n] == Pick(t.cols[n], keep)
  {
    Frame(t.names, map n | n in t.cols :: Pick(t.cols[n], keep), |Kept(keep)|)
  }

  function TotalHeight(ts: seq<Table>): nat
  {
    if |ts| == 0 then 0 else TotalHeight(ts[..|ts| - 1]) + ts[|ts| - 1].height
  }

  /** Column names of a concatenation: those of the first table, then each
      later table's names not seen before, in order of first appearance. */
  function UnionNames(ts: seq<Table>): (u: seq<string>)
    ensures Distinct(u)
    ensures forall k, n :: 0 <= k < |ts| && n in ts[k].cols ==> n in u
  {
    if |ts| == 0 then []
    else
      var init := ts[..|ts| - 1];
      var last := ts[|ts| - 1];
      var seen := UnionNames(init);
      var mask := seq(|last.names|, i requires 0 <= i < |last.names| => last.names[i] !in seen);
      var extra := Pick(last.names, mask);
      PickDistinct(last.names, mask);
      forall n
        ensures n in extra <==> n in last.cols && n !in seen
      {
        PickMembers(last.names, mask, n);
      }
      assert Distinct(seen + extra) by {
        forall i, j | 0 <= i < j < |seen + extra|
          ensures (seen + extra)[i] != (seen + extra)[j]
        {
          if j >= |seen| && i < |seen| {
            assert (seen + extra)[j] in extra;
          }
        }
      }
      forall k, n | 0 <= k < |ts| && n in ts[k].cols
        ensures n in seen + extra
      {
        if k < |ts| - 1 {
          assert init[k] == ts[k];
        }
      }
      seen + extra
  }

  /** Every name of the union is a column of one of the tables. */
  lemma {:induction false} UnionNamesFrom(ts: seq<Table>, n: string)
    requires n in UnionNames(ts)
    ensures exists k :: 0 <= k < |ts| && n in ts[k].cols
  {
    var init := ts[..|ts| - 1];
    var last := ts[|ts| - 1];
    var seen := UnionNames(init);
    if n in seen {
      UnionNamesFrom(init, n);
      var k :| 0 <= k < |init| && n in init[k].cols;
      assert ts[k] == init[k];
    } else {
      var mask := seq(|last.names|, i requires 0 <= i < |last.names| => last.names[i] !in seen);
      PickMembers(last.names, mask, n);
      assert n in last.cols;
    }
  }

  /** The cells of column n over all tables, one block per table, null where
      a table lacks the column. */
  function JoinColumn(ts: seq<Table>, n: string): (c: Column)
    ensures |c| == TotalHeight(ts)
  {
    if |ts| == 0 then []
    else JoinColumn(ts[..|ts| - 1], n) + ColumnOrNulls(ts[|ts| - 1], n)
  }

  /** `pd.concat(ts, ignore_index=True)` for a non-empty list: rows of each
      table in list order; columns are the union of all columns. */
  function ConcatAll(ts: seq<Table>): (r: Table)
    requires |ts| > 0
    ensures r.height == TotalHeight(ts)
    ensures r.names == UnionNames(ts)
    ensures forall k, n :: 0 <= k < |ts| && n in ts[k].cols ==> n in r.cols
    ensures forall n :: n in r.cols ==> r.cols[n] == JoinColumn(ts, n)
  {
    var names := UnionNames(ts);
    Frame(names, map n | n in names :: JoinColumn(ts, n), TotalHeight(ts))
  }

  /** The concatenation has no column that none of the tables has. */
  lemma ConcatAllColumnsFrom(ts: seq<Table>, n: string)
    requires |ts| > 0 && n in ConcatAll(ts).cols
    ensures exists k :: 0 <= k < |ts| && n in ts[k].cols
  {
    UnionNamesFrom(ts, n);
  }

  /** Table k of ts starts at this row of ConcatAll(ts). */
  function Offset(ts: seq<Table>, k: nat): nat
    requires k <= |ts|
  {
    TotalHeight(ts[..k])
  }

  lemma {:induction false} OffsetBound(ts: seq<Table>, k: nat)
    requires k < |ts|
    ensures Offset(ts, k) + ts[k].height <= TotalHeight(ts)
  {
    if k < |ts| - 1 {
      var init := ts[..|ts| - 1];
      assert init[..k] == ts[..k];
      assert init[..k + 1] == ts[..k + 1];
      OffsetBound(init, k);
    } else {
      assert ts[..k] == ts[..|ts| - 1];
    }
  }

  /** Row i of table k is row Offset(ts, k) + i of the joined column. */
  lemma {:induction false} JoinColumnRows(ts: seq<Table>, k: nat, i: nat, n: string)
    requires k < |ts| && i < ts[k].height
    ensures Offset(ts, k) + i < TotalHeight(ts)
    ensures JoinColumn(ts, n)[Offset(ts, k) + i] == ColumnOrNulls(ts[k], n)[i]
  {
    OffsetBound(ts, k);
    var init := ts[..|ts| - 1];
    if k == |ts| - 1 {
      assert ts[..k] == init;
    } else {
      assert init[k] == ts[k];
      assert init[..k] == ts[..k];
      JoinColumnRows(init, k, i, n);
    }
  }

  /** Provenance: row i of table k reappears at row Offset(ts, k) + i of the
      concatenation, with the same cell in every column of table k and a
      null cell in every other column. */
  lemma ConcatAllRows(ts: seq<Table>, k: nat, i: nat, n: string)
    requires k < |ts| && i < ts[k].height
    requires n in ConcatAll(ts).cols
    ensures Offset(ts, k) + i < ConcatAll(ts).height
    ensures ConcatAll(ts).cols[n][Offset(ts, k) + i] == ColumnOrNulls(ts[k], n)[i]
  {
    JoinColumnRows(ts, k, i, n);
  }

  /** The column the loaders add to say which country a row came from. */
  const CountryColumn := "Country"

  /** `df['Country'] = name`: every row gets the name, other columns stay. */
  function Tag(t: Table, country: string): (r: Table)
    ensures r.height == t.height
    ensures r.cols.Keys == t.cols.Keys + {CountryColumn}
    ensures forall i :: 0 <= i < t.height ==> r.cols[CountryColumn][i] == Text(country)
    ensures forall n :: n in t.cols && n != CountryColumn ==> r.cols[n] == t.cols[n]
  {
    WithColumn(t, CountryColumn, Constant(Text(country), t.height))
  }

  /** `Series.unique()`: each value once, in order of first appearance. */
  function Uniques(c: Column): (u: seq<Cell>)
    ensures Distinct(u)
    ensures forall x :: x in u <==> x in c
    ensures forall i, j :: 0 <= i < j < |u| ==> IndexOf(c, u[i]) < IndexOf(c, u[j])
  {
    if |c| == 0 then []
    else
      var init := c[..|c| - 1];
      var last := c[|c| - 1];
      assert c == init + [last];
      var u := Uniques(init);
      forall x | x in init
        ensures IndexOf(c, x) == IndexOf(init, x)
      {
        IndexOfPrefix(init, last, x);
      }
      if last in init then u
      else
        assert IndexOf(c, last) == |c| - 1 by {
          IndexOfLast(init, last);
        }
        u + [last]
  }

  /** Each table tagged with the name at the same position. */
  function TagAll(ts: seq<Table>, names: seq<string>): (us: seq<Table>)
    requires |names| == |ts|
    ensures |us| == |ts| && forall k :: 0 <= k < |ts| ==> us[k] == Tag(ts[k], names[k])
  {
    if |ts| == 0 then []
    else [Tag(ts[0], names[0])] + TagAll(ts[1..], names[1..])
  }

  /** Tables of equal heights, position by position, have equal total height. */
  lemma {:induction false} SameHeights(ts: seq<Table>, us: seq<Table>)
    requires |ts| == |us| && forall k :: 0 <= k < |ts| ==> ts[k].height == us[k].height
    ensures TotalHeight(ts) == TotalHeight(us)
  {
    if |ts| > 0 {
      var n := |ts| - 1;
      SameHeights(ts[..n], us[..n]);
    }
  }

  /** Tagging keeps heights, so each table starts at the same row. */
  lemma TagAllOffset(ts: seq<Table>, names: seq<string>, k: nat)
    requires |names| == |ts| && k <= |ts|
    ensures Offset(TagAll(ts, names), k) == Offset(ts, k)
  {
    var us := TagAll(ts, names);
    SameHeights(ts[..k], us[..k]);
  }

  /** Provenance through tag-and-concatenate: row i of the k-th table sits at
      row Offset(ts, k) + i of the joined tagged tables, carries the k-th name
      in the country column and its own cell (null where the table lacks the
      column) everywhere else. */
  lemma {:induction false} TagAllRows(ts: seq<Table>, names: seq<string>, k: nat, i: nat, n: string)
    requires |names| == |ts| && k < |ts| && i < ts[k].height
    ensures Offset(ts, k) + i < TotalHeight(TagAll(ts, names))
    ensures JoinColumn(TagAll(ts, names), n)[Offset(ts, k) + i]
      == (if n == CountryColumn then Text(names[k]) else ColumnOrNulls(ts[k], n)[i])
  {
    var us := TagAll(ts, names);
    assert Offset(us, k) == Offset(ts, k) by {
      TagAllOffset(ts, names, k);
    }
    assert us[k] == Tag(ts[k], names[k]);
    TaggedRow(us, ts[k], names[k], k, i, n);
  }

  /** Row i of a joined table k that is t tagged with a country. */
  lemma {:induction false} TaggedRow(us: seq<Table>, t: Table, country: string, k: nat, i: nat, n: string)
    requires k < |us| && us[k] == Tag(t, country) && i < t.height
    ensures Offset(us, k) + i < TotalHeight(us)
    ensures JoinColumn(us, n)[Offset(us, k) + i]
      == (if n == CountryColumn then Text(country) else ColumnOrNulls(t, n)[i])
  {
    JoinColumnRows(us, k, i, n);
    TagRow(t, country, n, i);
  }

  /** Row i of a tagged table: the country in the country column, the
      table's own cell (or null) elsewhere. */
  lemma TagRow(t: Table, country: string, n: string, i: nat)
    requires i < t.height
    ensures ColumnOrNulls(Tag(t, country), n)[i]
      == (if n == CountryColumn then Text(country) else ColumnOrNulls(t, n)[i])
  {
    var u := Tag(t, country);
    if n != CountryColumn && n !in t.cols {
      assert n !in u.cols;
    }
  }

  /** Tag each table with its name, then concatenate them in list order. */
  function TagConcat(ts: seq<Table>, names: seq<string>): (r: Table)
    requires |names| == |ts| && |ts| > 0
    ensures r.height == TotalHeight(ts)
    ensures CountryColumn in r.cols
  {
    var us := TagAll(ts, names);
    SameHeights(ts, us);
    assert CountryColumn in us[0].cols;
    ConcatAll(us)
  }

  /** `TagAllRows` read off the concatenation itself: the country column of
      the block holds the k-th name, every other column the k-th table's own
      cells. */
  lemma ConcatTagRows(ts: seq<Table>, names: seq<string>, k: nat, i: nat, n: string)
    requires |names| == |ts| && k < |ts| && i < ts[k].height
    ensures var t := TagConcat(ts, names);
      && Offset(ts, k) + i < t.height
      && t.cols[CountryColumn][Offset(ts, k) + i] == Text(names[k])
      && (n in t.cols && n != CountryColumn ==> t.cols[n][Offset(ts, k) + i] == ColumnOrNulls(ts[k], n)[i])
  {
    TagAllRows(ts, names, k, i, CountryColumn);
    TagAllRows(ts, names, k, i, n);
  }

  /** `df['Country'] == key`: a null key (NaN) equals no cell. */
  function RowsOf(c: Column, key: Cell): (mask: seq<bool>)
    ensures |mask| == |c|
    ensures forall i :: 0 <= i < |c| ==> (mask[i] <==> key != Null && c[i] == key)
  {
    seq(|c|, i requires 0 <= i < |c| => key != Null && c[i] == key)
  }

  /** Row j of `df[mask]` is the j-th selected row of the table. */
  lemma SelectRowsSound(t: Table, keep: seq<bool>, j: nat)
    requires |keep| == t.height && j < SelectRows(t, keep).height
    ensures Kept(keep)[j] < t.height && keep[Kept(keep)[j]]
    ensures forall n :: n in t.cols ==> SelectRows(t, keep).cols[n][j] == t.cols[n][Kept(keep)[j]]
  {
  }

  /** Every selected row of the table survives in `df[mask]`. */
  lemma SelectRowsComplete(t: Table, keep: seq<bool>, i: nat)
    requires |keep| == t.height && i < t.height && keep[i]
    ensures exists j :: 0 <= j < SelectRows(t, keep).height && Kept(keep)[j] == i
  {
    KeptComplete(keep, i);
  }
}
