/** `VolumeDataProcessor`: total lifted volume (the summed one-rep maxima)
    per training date, completed with zero-volume rows for the days between
    the first and the last training date. */
module Volume {
  import opened Common
  import opened Order
  import Weightlifting

  /** A row of `wrangle_volume_data`'s output: `date` and the summed
      `one_rep_max`. */
  datatype VolumeDay = VolumeDay(date: int, oneRepMax: real)

  /** A row of a table with a `date` column and one nullable value column. */
  datatype DayValue = DayValue(date: int, value: Option<real>)

  /** A table with a `date` column and one value column named `valueName`. */
  datatype ValueTable = ValueTable(valueName: string, rows: seq<DayValue>)

  // ---------------------------------------------------------------------
  // wrangle_volume_data
  // ---------------------------------------------------------------------

  function LiftDates(rows: seq<Weightlifting.LiftResult>): seq<int>
  {
    seq(|rows|, k requires 0 <= k < |rows| => rows[k].date)
  }

  /** The summed `one_rep_max` of the rows dated `d` (0 when there is none). */
  function VolumeOn(rows: seq<Weightlifting.LiftResult>, d: int): real
  {
    if rows == [] then 0.0
    else
      var last := rows[|rows| - 1];
      VolumeOn(rows[..|rows| - 1], d) + (if last.date == d then last.oneRepMax else 0.0)
  }

  /** The summed `one_rep_max` of all rows. */
  function TotalOf(rows: seq<Weightlifting.LiftResult>): real
  {
    if rows == [] then 0.0 else TotalOf(rows[..|rows| - 1]) + rows[|rows| - 1].oneRepMax
  }

  /** The summed `one_rep_max` column of a volume table. */
  function Volume(w: seq<VolumeDay>): real
  {
    if w == [] then 0.0 else Volume(w[..|w| - 1]) + w[|w| - 1].oneRepMax
  }

  /** One volume row per key, in key order. */
  function Totals(ks: seq<int>, rows: seq<Weightlifting.LiftResult>): seq<VolumeDay>
  {
    seq(|ks|, k requires 0 <= k < |ks| => VolumeDay(ks[k], VolumeOn(rows, ks[k])))
  }

  /** `groupby("date").agg({"one_rep_max": "sum"}).reset_index()`: the
      group keys in ascending order, each with its group's sum. */
  function WrangleVolumeData(rows: seq<Weightlifting.LiftResult>): seq<VolumeDay>
  {
    Totals(DistinctSorted(LiftDates(rows), IntLess), rows)
  }

  predicate Distinct(ks: seq<int>)
  {
    forall i, j :: 0 <= i < |ks| && 0 <= j < |ks| && i != j ==> ks[i] != ks[j]
  }

  /** The total over a set of keys of each key's volume. */
  function KeyTotal(ks: seq<int>, rows: seq<Weightlifting.LiftResult>): real
  {
    if ks == [] then 0.0 else KeyTotal(ks[..|ks| - 1], rows) + VolumeOn(rows, ks[|ks| - 1])
  }

  lemma {:induction false} VolumeOfTotals(ks: seq<int>, rows: seq<Weightlifting.LiftResult>)
    ensures Volume(Totals(ks, rows)) == KeyTotal(ks, rows)
  {
    if ks != [] {
      var init := ks[..|ks| - 1];
      VolumeOfTotals(init, rows);
      assert Totals(ks, rows)[..|ks| - 1] == Totals(init, rows);
    }
  }

  lemma {:induction false} KeyTotalNoRows(ks: seq<int>)
    ensures KeyTotal(ks, []) == 0.0
  {
    if ks != [] {
      KeyTotalNoRows(ks[..|ks| - 1]);
    }
  }

  /** One more row adds its volume to the total over the keys exactly when
      its date is one of the keys. */
  lemma {:induction false} KeyTotalAppendRow(ks: seq<int>, rows: seq<Weightlifting.LiftResult>, x: Weightlifting.LiftResult)
    requires Distinct(ks)
    ensures KeyTotal(ks, rows + [x]) == KeyTotal(ks, rows) + (if x.date in ks then x.oneRepMax else 0.0)
  {
    if ks != [] {
      var init := ks[..|ks| - 1];
      var last := ks[|ks| - 1];
      assert Distinct(init);
      KeyTotalAppendRow(init, rows, x);
      assert (rows + [x])[..|rows|] == rows;
      assert VolumeOn(rows + [x], last) == VolumeOn(rows, last) + (if x.date == last then x.oneRepMax else 0.0);
      assert ks == init + [last];
      if x.date == last {
        assert x.date !in init by {
          forall i | 0 <= i < |init| ensures init[i] != last {
            assert ks[i] != ks[|ks| - 1];
          }
        }
      }
    }
  }

  /** Summing each key's volume over keys that cover every row's date, each
      once, gives the total of the rows. */
  lemma {:induction false} KeyTotalCovers(ks: seq<int>, rows: seq<Weightlifting.LiftResult>)
    requires Distinct(ks)
    requires forall i :: 0 <= i < |rows| ==> rows[i].date in ks
    ensures KeyTotal(ks, rows) == TotalOf(rows)
  {
    if rows == [] {
      KeyTotalNoRows(ks);
    } else {
      var init := rows[..|rows| - 1];
      var last := rows[|rows| - 1];
      assert forall i :: 0 <= i < |init| ==> init[i] == rows[i];
      KeyTotalCovers(ks, init);
      KeyTotalAppendRow(ks, init, last);
      assert rows == init + [last];
    }
  }

  ghost predicate HasDate(w: seq<VolumeDay>, d: int)
  {
    exists k :: 0 <= k < |w| && w[k].date == d
  }

  ghost predicate HasLiftOn(rows: seq<Weightlifting.LiftResult>, d: int)
  {
    exists i :: 0 <= i < |rows| && rows[i].date == d
  }

  /** A date without rows has no volume. */
  lemma {:induction false} VolumeOnAbsent(rows: seq<Weightlifting.LiftResult>, d: int)
    requires !HasLiftOn(rows, d)
    ensures VolumeOn(rows, d) == 0.0
  {
    if rows != [] {
      var init := rows[..|rows| - 1];
      assert !HasLiftOn(init, d) by {
        forall i | 0 <= i < |init| ensures init[i].date != d {
          assert init[i] == rows[i];
        }
      }
      VolumeOnAbsent(init, d);
    }
  }

  /** One row per distinct date, ascending, with that date's summed
      one-rep maxima; no volume is lost or counted twice. */
  lemma {:induction false} WrangleVolumeDataCorrect(rows: seq<Weightlifting.LiftResult>, w: seq<VolumeDay>)
    requires w == WrangleVolumeData(rows)
    ensures forall i, j :: 0 <= i < j < |w| ==> w[i].date < w[j].date
    ensures forall d :: HasDate(w, d) <==> HasLiftOn(rows, d)
    ensures forall k :: 0 <= k < |w| ==> w[k].oneRepMax == VolumeOn(rows, w[k].date)
    ensures Volume(w) == TotalOf(rows)
  {
    var keys := DistinctSorted(LiftDates(rows), IntLess);
    IntLessStrict();
    DistinctSortedCorrect(LiftDates(rows), IntLess);
    assert Distinct(keys);
    forall d ensures HasDate(w, d) <==> HasLiftOn(rows, d) {
      if HasDate(w, d) {
        var k :| 0 <= k < |w| && w[k].date == d;
        assert keys[k] == d;
        assert d in LiftDates(rows);
      }
      if HasLiftOn(rows, d) {
        var i :| 0 <= i < |rows| && rows[i].date == d;
        assert LiftDates(rows)[i] == d;
        assert d in LiftDates(rows);
        assert d in keys;
        var k :| 0 <= k < |keys| && keys[k] == d;
        assert w[k].date == d;
      }
    }
    forall i | 0 <= i < |rows| ensures rows[i].date in keys {
      assert LiftDates(rows)[i] == rows[i].date;
    }
    KeyTotalCovers(keys, rows);
    VolumeOfTotals(keys, rows);
  }

  // ---------------------------------------------------------------------
  // fill_missing_dates
  // ---------------------------------------------------------------------

  /** The smallest of a non-empty sequence of dates. */
  function MinInt(xs: seq<int>): int
    requires xs != []
  {
    if |xs| == 1 then xs[0]
    else
      var m0 := MinInt(xs[..|xs| - 1]);
      if xs[|xs| - 1] < m0 then xs[|xs| - 1] else m0
  }

  /** The largest of a non-empty sequence of dates. */
  function MaxInt(xs: seq<int>): int
    requires xs != []
  {
    if |xs| == 1 then xs[0]
    else
      var m0 := MaxInt(xs[..|xs| - 1]);
      if xs[|xs| - 1] > m0 then xs[|xs| - 1] else m0
  }

  /** `min()` and `max()` are attained and bound every element. */
  lemma {:induction false} MinMaxCorrect(xs: seq<int>)
    requires xs != []
    ensures MinInt(xs) in xs && forall k :: 0 <= k < |xs| ==> MinInt(xs) <= xs[k]
    ensures MaxInt(xs) in xs && forall k :: 0 <= k < |xs| ==> xs[k] <= MaxInt(xs)
  {
    if |xs| > 1 {
      var init := xs[..|xs| - 1];
      MinMaxCorrect(init);
      assert forall k :: 0 <= k < |init| ==> init[k] == xs[k];
      assert xs == init + [xs[|xs| - 1]];
    }
  }

  function DayDates(rows: seq<DayValue>): seq<int>
  {
    seq(|rows|, k requires 0 <= k < |rows| => rows[k].date)
  }

  /** The rows of `rows` dated `d`, in their order. */
  function Matching(rows: seq<DayValue>, d: int): seq<DayValue>
  {
    if rows == [] then []
    else
      var last := rows[|rows| - 1];
      Matching(rows[..|rows| - 1], d) + (if last.date == d then [last] else [])
  }

  /** The left-merge rows of day `d`: its matches, or one row of NaN. */
  function JoinOn(d: int, rows: seq<DayValue>): seq<DayValue>
  {
    var m := Matching(rows, d);
    if m == [] then [DayValue(d, None)] else m
  }

  /** `pd.merge(all_dates, data, on="date", how="left")` for the `n` days
      from `lo`. */
  function MergeRange(lo: int, n: nat, rows: seq<DayValue>): seq<DayValue>
  {
    if n == 0 then [] else MergeRange(lo, n - 1, rows) + JoinOn(lo + n - 1, rows)
  }

  /** `fillna(0)` on the value column. */
  function ZeroFill(rows: seq<DayValue>): seq<DayValue>
  {
    seq(|rows|, k requires 0 <= k < |rows| =>
      DayValue(rows[k].date, if rows[k].value.Some? then rows[k].value else Some(0.0)))
  }

  /** The column that is filled: `new_column` when it is truthy (a
      non-empty string), `fill_column` otherwise. */
  function FillTarget(fillColumn: string, newColumn: Option<string>): string
  {
    if newColumn.Some? && newColumn.value != "" then newColumn.value else fillColumn
  }

  /** The value column's name after `rename(columns={fill_column:
      new_column})`, which leaves other names alone. */
  function Renamed(valueName: string, fillColumn: string, newColumn: Option<string>): string
  {
    if newColumn.Some? && newColumn.value != "" && valueName == fillColumn then newColumn.value else valueName
  }

  /** `rename(columns={"date": new_column})` with a new name: the date
      column itself is renamed. */
  predicate RenamesDate(fillColumn: string, newColumn: Option<string>)
  {
    fillColumn == "date" && newColumn.Some? && newColumn.value != "" && newColumn.value != "date"
  }

  /** `fill_missing_dates` with `date_column="date"`.  An empty table has
      no minimum date and `date_range` rejects it; a value column renamed
      to "date" makes the merge key ambiguous; filling a column the table
      lacks is a KeyError, and filling `date` itself changes nothing.
      Renaming `date` itself to another name leaves the table without the
      merge key, a KeyError. */
  function FillMissingDatesSpec(t: ValueTable, fillColumn: string, newColumn: Option<string>): Result<ValueTable>
    requires t.valueName != "date"
  {
    if t.rows == [] then Err(ValueError("date_range"))
    else
      var lo := MinInt(DayDates(t.rows));
      var hi := MaxInt(DayDates(t.rows));
      var target := FillTarget(fillColumn, newColumn);
      var name := Renamed(t.valueName, fillColumn, newColumn);
      if RenamesDate(fillColumn, newColumn) then Err(KeyError("date"))
      else if name == "date" then Err(ValueError("merge key"))
      else
        var merged := MergeRange(lo, hi - lo + 1, t.rows);
        if target == name then Ok(ValueTable(name, ZeroFill(merged)))
        else if target == "date" then Ok(ValueTable(name, merged))
        else Err(KeyError(target))
  }

  /** `merged_data[column].fillna(0, inplace=True)`. */
  method FillNaZero(col: array<Option<real>>)
    modifies col
    ensures forall k :: 0 <= k < col.Length ==>
      col[k] == (if old(col[k]).Some? then old(col[k]) else Some(0.0))
  {
    for k := 0 to col.Length
      invariant forall j :: 0 <= j < k ==> col[j] == (if old(col[j]).Some? then old(col[j]) else Some(0.0))
      invariant forall j :: k <= j < col.Length ==> col[j] == old(col[j])
    {
      if col[k].None? {
        col[k] := Some(0.0);
      }
    }
  }

  method FillMissingDates(t: ValueTable, fillColumn: string, newColumn: Option<string>) returns (r: Result<ValueTable>)
    requires t.valueName != "date"
    ensures r == FillMissingDatesSpec(t, fillColumn, newColumn)
  {
    if t.rows == [] {
      return Err(ValueError("date_range"));
    }
    var lo := MinInt(DayDates(t.rows));
    var hi := MaxInt(DayDates(t.rows));
    var target := FillTarget(fillColumn, newColumn);
    var name := Renamed(t.valueName, fillColumn, newColumn);
    if RenamesDate(fillColumn, newColumn) {
      return Err(KeyError("date"));
    }
    if name == "date" {
      return Err(ValueError("merge key"));
    }
    var merged := MergeRange(lo, hi - lo + 1, t.rows);
    if target == name {
      var col := new Option<real>[|merged|](k requires 0 <= k < |merged| => merged[k].value);
      FillNaZero(col);
      var vs := col[..];
      var filled := seq(|merged|, k requires 0 <= k < |merged| => DayValue(merged[k].date, vs[k]));
      assert filled == ZeroFill(merged);
      r := Ok(ValueTable(name, filled));
    } else if target == "date" {
      r := Ok(ValueTable(name, merged));
    } else {
      r := Err(KeyError(target));
    }
  }

  /** The error cases, in the order the source meets them. */
  lemma {:induction false} FillMissingDatesErrors(t: ValueTable, fillColumn: string, newColumn: Option<string>)
    requires t.valueName != "date"
    ensures FillMissingDatesSpec(t, fillColumn, newColumn).Err? <==>
      t.rows == [] || RenamesDate(fillColumn, newColumn) ||
      Renamed(t.valueName, fillColumn, newColumn) == "date" ||
      (FillTarget(fillColumn, newColumn) != Renamed(t.valueName, fillColumn, newColumn) &&
       FillTarget(fillColumn, newColumn) != "date")
    ensures t.rows == [] ==> FillMissingDatesSpec(t, fillColumn, newColumn) == Err(ValueError("date_range"))
    ensures t.rows != [] && RenamesDate(fillColumn, newColumn) ==>
      FillMissingDatesSpec(t, fillColumn, newColumn) == Err(KeyError("date"))
    ensures newColumn.None? && fillColumn == t.valueName && t.rows != [] ==>
      FillMissingDatesSpec(t, fillColumn, newColumn).Ok? &&
      FillMissingDatesSpec(t, fillColumn, newColumn).value.valueName == fillColumn
    ensures newColumn.Some? && newColumn.value != "" && newColumn.value != "date" &&
            fillColumn == t.valueName && t.rows != [] ==>
      FillMissingDatesSpec(t, fillColumn, newColumn).Ok? &&
      FillMissingDatesSpec(t, fillColumn, newColumn).value.valueName == newColumn.value
  {
  }

  ghost predicate HasDay(rows: seq<DayValue>, d: int)
  {
    exists k :: 0 <= k < |rows| && rows[k].date == d
  }

  lemma {:induction false} MatchingDates(rows: seq<DayValue>, d: int)
    ensures forall k :: 0 <= k < |Matching(rows, d)| ==> Matching(rows, d)[k].date == d
  {
    if rows != [] {
      MatchingDates(rows[..|rows| - 1], d);
    }
  }

  lemma {:induction false} MatchingKeeps(rows: seq<DayValue>, x: DayValue)
    requires x in rows
    ensures x in Matching(rows, x.date)
  {
    var init := rows[..|rows| - 1];
    if x != rows[|rows| - 1] {
      assert rows == init + [rows[|rows| - 1]];
      MatchingKeeps(init, x);
    }
  }

  /** Every merged row is dated within the range, and the dates ascend. */
  lemma {:induction false} MergeRangeDates(lo: int, n: nat, rows: seq<DayValue>)
    ensures forall k :: 0 <= k < |MergeRange(lo, n, rows)| ==> lo <= MergeRange(lo, n, rows)[k].date < lo + n
    ensures forall i, j :: 0 <= i < j < |MergeRange(lo, n, rows)| ==>
      MergeRange(lo, n, rows)[i].date <= MergeRange(lo, n, rows)[j].date
  {
    if n > 0 {
      MergeRangeDates(lo, n - 1, rows);
      MatchingDates(rows, lo + n - 1);
      var a := MergeRange(lo, n - 1, rows);
      var b := JoinOn(lo + n - 1, rows);
      assert forall k :: 0 <= k < |b| ==> b[k].date == lo + n - 1;
      assert MergeRange(lo, n, rows) == a + b;
    }
  }

  /** Every day of the range has a merged row, and every input row dated
      within the range is kept. */
  lemma {:induction false} MergeRangeCovers(lo: int, n: nat, rows: seq<DayValue>)
    ensures forall d :: lo <= d < lo + n ==> HasDay(MergeRange(lo, n, rows), d)
    ensures forall x :: x in rows && lo <= x.date < lo + n ==> x in MergeRange(lo, n, rows)
  {
    if n > 0 {
      MergeRangeCovers(lo, n - 1, rows);
      var a := MergeRange(lo, n - 1, rows);
      var d0 := lo + n - 1;
      var b := JoinOn(d0, rows);
      MatchingDates(rows, d0);
      assert MergeRange(lo, n, rows) == a + b;
      assert b[0].date == d0;
      forall d | lo <= d < lo + n ensures HasDay(a + b, d) {
        if d == d0 {
          assert (a + b)[|a|].date == d;
        } else {
          assert HasDay(a, d);
          var k :| 0 <= k < |a| && a[k].date == d;
          assert (a + b)[k].date == d;
        }
      }
      forall x | x in rows && lo <= x.date < lo + n ensures x in a + b {
        if x.date == d0 {
          MatchingKeeps(rows, x);
        }
      }
    }
  }

  predicate UniqueDates(rows: seq<DayValue>)
  {
    forall i, j :: 0 <= i < |rows| && 0 <= j < |rows| && i != j ==> rows[i].date != rows[j].date
  }

  /** The value of the row dated `d`, NaN when there is none. */
  function ValueOn(rows: seq<DayValue>, d: int): Option<real>
  {
    if rows == [] then None
    else if rows[|rows| - 1].date == d then rows[|rows| - 1].value
    else ValueOn(rows[..|rows| - 1], d)
  }

  lemma {:induction false} MatchingAbsent(rows: seq<DayValue>, d: int)
    requires !HasDay(rows, d)
    ensures Matching(rows, d) == [] && ValueOn(rows, d) == None
  {
    if rows != [] {
      var init := rows[..|rows| - 1];
      assert !HasDay(init, d) by {
        forall k | 0 <= k < |init| ensures init[k].date != d {
          assert init[k] == rows[k];
        }
      }
      MatchingAbsent(init, d);
    }
  }

  /** With unique dates, each day joins to exactly one row. */
  lemma {:induction false} JoinOnUnique(rows: seq<DayValue>, d: int)
    requires UniqueDates(rows)
    ensures JoinOn(d, rows) == [DayValue(d, ValueOn(rows, d))]
  {
    if !HasDay(rows, d) {
      MatchingAbsent(rows, d);
    } else {
      var init := rows[..|rows| - 1];
      var last := rows[|rows| - 1];
      assert UniqueDates(init) by {
        forall i, j | 0 <= i < |init| && 0 <= j < |init| && i != j ensures init[i].date != init[j].date {
          assert init[i] == rows[i] && init[j] == rows[j];
        }
      }
      if last.date == d {
        assert !HasDay(init, d) by {
          forall k | 0 <= k < |init| ensures init[k].date != d {
            assert init[k] == rows[k];
          }
        }
        MatchingAbsent(init, d);
      } else {
        assert HasDay(init, d) by {
          var k :| 0 <= k < |rows| && rows[k].date == d;
          assert init[k] == rows[k];
        }
        JoinOnUnique(init, d);
      }
    }
  }

  /** With unique dates, the merge has one row per day, in day order. */
  lemma {:induction false} MergeRangeUnique(lo: int, n: nat, rows: seq<DayValue>)
    requires UniqueDates(rows)
    ensures |MergeRange(lo, n, rows)| == n
    ensures forall k :: 0 <= k < n ==> MergeRange(lo, n, rows)[k] == DayValue(lo + k, ValueOn(rows, lo + k))
  {
    if n > 0 {
      MergeRangeUnique(lo, n - 1, rows);
      JoinOnUnique(rows, lo + n - 1);
    }
  }

  lemma {:induction false} ValueOnAt(rows: seq<DayValue>, k: nat)
    requires UniqueDates(rows) && k < |rows|
    ensures ValueOn(rows, rows[k].date) == rows[k].value
  {
    var init := rows[..|rows| - 1];
    if k < |rows| - 1 {
      assert rows[|rows| - 1].date != rows[k].date;
      assert UniqueDates(init) by {
        forall i, j | 0 <= i < |init| && 0 <= j < |init| && i != j ensures init[i].date != init[j].date {
          assert init[i] == rows[i] && init[j] == rows[j];
        }
      }
      assert init[k] == rows[k];
      ValueOnAt(init, k);
    }
  }

  /** The zero-filled merge over `n` days from `lo` covers each of them,
      stays within them, ascends, has no NaN, and keeps every input row
      dated within them (with NaN turned into 0). */
  lemma {:induction false} ZeroFilledMerge(lo: int, n: nat, rows: seq<DayValue>, out: seq<DayValue>)
    requires out == ZeroFill(MergeRange(lo, n, rows))
    ensures forall d :: lo <= d < lo + n ==> HasDay(out, d)
    ensures forall k :: 0 <= k < |out| ==> lo <= out[k].date < lo + n && out[k].value.Some?
    ensures forall i, j :: 0 <= i < j < |out| ==> out[i].date <= out[j].date
    ensures forall x :: x in rows && lo <= x.date < lo + n ==>
      DayValue(x.date, if x.value.Some? then x.value else Some(0.0)) in out
  {
    var merged := MergeRange(lo, n, rows);
    MergeRangeDates(lo, n, rows);
    MergeRangeCovers(lo, n, rows);
    forall d | lo <= d < lo + n ensures HasDay(out, d) {
      assert HasDay(merged, d);
      var k :| 0 <= k < |merged| && merged[k].date == d;
      assert out[k].date == d;
    }
    forall x | x in rows && lo <= x.date < lo + n
      ensures DayValue(x.date, if x.value.Some? then x.value else Some(0.0)) in out
    {
      var k :| 0 <= k < |merged| && merged[k] == x;
      assert out[k] == DayValue(x.date, if x.value.Some? then x.value else Some(0.0));
    }
  }

  /** With unique input dates the zero-filled merge has exactly one row per
      day: the input's value, or 0 for NaN and for an added day. */
  lemma {:induction false} ZeroFilledMergeUnique(lo: int, n: nat, rows: seq<DayValue>, out: seq<DayValue>)
    requires out == ZeroFill(MergeRange(lo, n, rows)) && UniqueDates(rows)
    ensures |out| == n
    ensures forall k :: 0 <= k < n ==>
      out[k] == DayValue(lo + k, if ValueOn(rows, lo + k).Some? then ValueOn(rows, lo + k) else Some(0.0))
  {
    MergeRangeUnique(lo, n, rows);
  }

  /** The table `fill_missing_dates` returns when the filled column is the
      value column. */
  lemma {:induction false} FillMissingDatesRows(t: ValueTable, fillColumn: string, newColumn: Option<string>, out: ValueTable, lo: int, hi: int)
    requires t.valueName != "date"
    requires FillMissingDatesSpec(t, fillColumn, newColumn) == Ok(out)
    requires FillTarget(fillColumn, newColumn) == Renamed(t.valueName, fillColumn, newColumn)
    requires t.rows != [] ==> lo == MinInt(DayDates(t.rows)) && hi == MaxInt(DayDates(t.rows))
    ensures t.rows != [] && lo <= hi
    ensures out.valueName == FillTarget(fillColumn, newColumn)
    ensures out.rows == ZeroFill(MergeRange(lo, hi - lo + 1, t.rows))
  {
    MinMaxCorrect(DayDates(t.rows));
    assert MinInt(DayDates(t.rows)) <= DayDates(t.rows)[0] <= MaxInt(DayDates(t.rows));
  }

  /** The input dates lie between their extremes. */
  lemma {:induction false} DatesWithin(rows: seq<DayValue>)
    requires rows != []
    ensures forall x :: x in rows ==> MinInt(DayDates(rows)) <= x.date <= MaxInt(DayDates(rows))
  {
    MinMaxCorrect(DayDates(rows));
    forall x | x in rows ensures MinInt(DayDates(rows)) <= x.date <= MaxInt(DayDates(rows)) {
      var i :| 0 <= i < |rows| && rows[i] == x;
      assert DayDates(rows)[i] == x.date;
    }
  }

  /** `fill_missing_dates` covers each day from the first date `lo` to the
      last date `hi` and no other, in date order, keeps every present value
      and gives NaN 0. */
  lemma {:induction false} FillMissingDatesCorrect(t: ValueTable, fillColumn: string, newColumn: Option<string>, out: ValueTable, lo: int, hi: int)
    requires t.valueName != "date"
    requires FillMissingDatesSpec(t, fillColumn, newColumn) == Ok(out)
    requires FillTarget(fillColumn, newColumn) == Renamed(t.valueName, fillColumn, newColumn)
    requires t.rows != [] ==> lo == MinInt(DayDates(t.rows)) && hi == MaxInt(DayDates(t.rows))
    ensures t.rows != []
    ensures out.valueName == FillTarget(fillColumn, newColumn)
    ensures forall d :: lo <= d <= hi ==> HasDay(out.rows, d)
    ensures forall k :: 0 <= k < |out.rows| ==> lo <= out.rows[k].date <= hi && out.rows[k].value.Some?
    ensures forall i, j :: 0 <= i < j < |out.rows| ==> out.rows[i].date <= out.rows[j].date
    ensures forall x :: x in t.rows ==> DayValue(x.date, if x.value.Some? then x.value else Some(0.0)) in out.rows
  {
    FillMissingDatesRows(t, fillColumn, newColumn, out, lo, hi);
    ZeroFilledMerge(lo, hi - lo + 1, t.rows, out.rows);
    DatesWithin(t.rows);
  }

  /** With unique input dates, `fill_missing_dates` yields exactly one row
      per day from `lo` to `hi`: the input's value, or 0 for NaN and for an
      added day. */
  lemma {:induction false} FillMissingDatesUnique(t: ValueTable, fillColumn: string, newColumn: Option<string>, out: ValueTable, lo: int, hi: int)
    requires t.valueName != "date"
    requires FillMissingDatesSpec(t, fillColumn, newColumn) == Ok(out)
    requires FillTarget(fillColumn, newColumn) == Renamed(t.valueName, fillColumn, newColumn)
    requires t.rows != [] ==> lo == MinInt(DayDates(t.rows)) && hi == MaxInt(DayDates(t.rows))
    requires UniqueDates(t.rows)
    ensures |out.rows| == hi - lo + 1
    ensures forall k :: 0 <= k < |out.rows| ==>
      out.rows[k] == DayValue(lo + k, if ValueOn(t.rows, lo + k).Some? then ValueOn(t.rows, lo + k) else Some(0.0))
  {
    FillMissingDatesRows(t, fillColumn, newColumn, out, lo, hi);
    ZeroFilledMergeUnique(lo, hi - lo + 1, t.rows, out.rows);
  }

  // ---------------------------------------------------------------------
  // process_volume_data
  // ---------------------------------------------------------------------

  function AsDayValues(w: seq<VolumeDay>): seq<DayValue>
  {
    seq(|w|, k requires 0 <= k < |w| => DayValue(w[k].date, Some(w[k].oneRepMax)))
  }

  function ProcessVolumeDataSpec(rows: seq<Weightlifting.LiftResult>): Result<ValueTable>
  {
    FillMissingDatesSpec(ValueTable("one_rep_max", AsDayValues(WrangleVolumeData(rows))), "one_rep_max", None)
  }

  /** `process_volume_data`: the per-date sums, completed over the date
      range. */
  method ProcessVolumeData(rows: seq<Weightlifting.LiftResult>) returns (r: Result<ValueTable>)
    ensures r == ProcessVolumeDataSpec(rows)
  {
    var data := WrangleVolumeData(rows);
    r := FillMissingDates(ValueTable("one_rep_max", AsDayValues(data)), "one_rep_max", None);
  }

  /** The consecutive days `lo`, `lo + 1`, ... */
  function Days(lo: int, n: nat): seq<int>
  {
    seq(n, k requires 0 <= k < n => lo + k)
  }

  /** Two date lists with the same members have the same extremes. */
  lemma {:induction false} SameExtremes(xs: seq<int>, ys: seq<int>)
    requires xs != [] && ys != []
    requires forall x :: x in xs <==> x in ys
    ensures MinInt(xs) == MinInt(ys) && MaxInt(xs) == MaxInt(ys)
  {
    MinMaxCorrect(xs);
    MinMaxCorrect(ys);
    var a, b := MinInt(xs), MinInt(ys);
    var ia :| 0 <= ia < |ys| && ys[ia] == a;
    var ib :| 0 <= ib < |xs| && xs[ib] == b;
    var c, d := MaxInt(xs), MaxInt(ys);
    var ic :| 0 <= ic < |ys| && ys[ic] == c;
    var id :| 0 <= id < |xs| && xs[id] == d;
  }

  /** The wrangled table's value at a day is that day's volume, NaN on days
      without lifting. */
  lemma {:induction false} WrangledValueOn(rows: seq<Weightlifting.LiftResult>, w: seq<VolumeDay>, d: int)
    requires w == WrangleVolumeData(rows)
    ensures UniqueDates(AsDayValues(w))
    ensures HasDay(AsDayValues(w), d) <==> HasLiftOn(rows, d)
    ensures HasDay(AsDayValues(w), d) ==> ValueOn(AsDayValues(w), d) == Some(VolumeOn(rows, d))
    ensures !HasDay(AsDayValues(w), d) ==> VolumeOn(rows, d) == 0.0
  {
    var v := AsDayValues(w);
    WrangleVolumeDataCorrect(rows, w);
    assert UniqueDates(v) by {
      forall i, j | 0 <= i < |v| && 0 <= j < |v| && i != j ensures v[i].date != v[j].date {
        if i < j { assert w[i].date < w[j].date; } else { assert w[j].date < w[i].date; }
      }
    }
    if HasDay(v, d) {
      var k :| 0 <= k < |v| && v[k].date == d;
      assert w[k].date == d;
      ValueOnAt(v, k);
    } else {
      assert !HasDate(w, d) by {
        forall k | 0 <= k < |w| ensures w[k].date != d {
          assert v[k].date == w[k].date;
        }
      }
      VolumeOnAbsent(rows, d);
    }
  }

  /** The wrangled table spans the same dates as the input rows. */
  lemma {:induction false} WrangledExtremes(rows: seq<Weightlifting.LiftResult>, w: seq<VolumeDay>)
    requires w == WrangleVolumeData(rows) && rows != []
    ensures AsDayValues(w) != []
    ensures MinInt(DayDates(AsDayValues(w))) == MinInt(LiftDates(rows))
    ensures MaxInt(DayDates(AsDayValues(w))) == MaxInt(LiftDates(rows))
  {
    var v := AsDayValues(w);
    WrangleVolumeDataCorrect(rows, w);
    assert HasLiftOn(rows, rows[0].date);
    assert v != [];
    forall x ensures x in DayDates(v) <==> x in LiftDates(rows) {
      WrangledValueOn(rows, w, x);
      if x in DayDates(v) {
        var k :| 0 <= k < |v| && DayDates(v)[k] == x;
        assert v[k].date == x;
        var i :| 0 <= i < |rows| && rows[i].date == x;
        assert LiftDates(rows)[i] == x;
      }
      if x in LiftDates(rows) {
        var i :| 0 <= i < |rows| && LiftDates(rows)[i] == x;
        assert rows[i].date == x;
        var k :| 0 <= k < |v| && v[k].date == x;
        assert DayDates(v)[k] == x;
      }
    }
    SameExtremes(DayDates(v), LiftDates(rows));
  }

  /** After the zero fill, each day holds its volume. */
  lemma {:induction false} ProcessedDay(rows: seq<Weightlifting.LiftResult>, w: seq<VolumeDay>, d: int)
    requires w == WrangleVolumeData(rows)
    ensures (if ValueOn(AsDayValues(w), d).Some? then ValueOn(AsDayValues(w), d) else Some(0.0)) == Some(VolumeOn(rows, d))
  {
    WrangledValueOn(rows, w, d);
    if !HasDay(AsDayValues(w), d) {
      MatchingAbsent(AsDayValues(w), d);
    }
  }

  lemma {:induction false} ProcessedRows(rows: seq<Weightlifting.LiftResult>, w: seq<VolumeDay>, lo: int, n: nat, out: seq<DayValue>)
    requires w == WrangleVolumeData(rows)
    requires |out| == n
    requires forall k :: 0 <= k < n ==>
      out[k] == DayValue(lo + k, if ValueOn(AsDayValues(w), lo + k).Some? then ValueOn(AsDayValues(w), lo + k) else Some(0.0))
    ensures out == AsDayValues(Totals(Days(lo, n), rows))
  {
    var expected := AsDayValues(Totals(Days(lo, n), rows));
    forall k | 0 <= k < n ensures out[k] == expected[k] {
      ProcessedDay(rows, w, lo + k);
      assert Days(lo, n)[k] == lo + k;
    }
  }

  /** `process_volume_data` yields one row per day from the first to the
      last lifting date `lo`..`hi`, holding that day's summed one-rep maxima
      (0 on days without lifting); with no lifting at all it raises. */
  lemma {:induction false} ProcessVolumeDataCorrect(rows: seq<Weightlifting.LiftResult>, lo: int, hi: int)
    ensures rows == [] ==> ProcessVolumeDataSpec(rows) == Err(ValueError("date_range"))
    ensures rows != [] && lo == MinInt(LiftDates(rows)) && hi == MaxInt(LiftDates(rows)) ==>
      ProcessVolumeDataSpec(rows) == Ok(ValueTable("one_rep_max", AsDayValues(Totals(Days(lo, hi - lo + 1), rows))))
  {
    if rows != [] && lo == MinInt(LiftDates(rows)) && hi == MaxInt(LiftDates(rows)) {
      var w := WrangleVolumeData(rows);
      var v := AsDayValues(w);
      WrangledExtremes(rows, w);
      var t := ValueTable("one_rep_max", v);
      var out := ProcessVolumeDataSpec(rows).value;
      WrangledValueOn(rows, w, lo);
      FillMissingDatesUnique(t, "one_rep_max", None, out, lo, hi);
      var expected := AsDayValues(Totals(Days(lo, hi - lo + 1), rows));
      ProcessedRows(rows, w, lo, hi - lo + 1, out.rows);
    }
  }

  /** Completing the date range adds only zero volume: the daily volumes
      over any range holding every lifting date total the input's volume. */
  lemma {:induction false} DailyVolumeTotal(rows: seq<Weightlifting.LiftResult>, lo: int, n: nat)
    requires forall i :: 0 <= i < |rows| ==> lo <= rows[i].date < lo + n
    ensures Volume(Totals(Days(lo, n), rows)) == TotalOf(rows)
  {
    var ks := Days(lo, n);
    assert Distinct(ks);
    assert forall i :: 0 <= i < |rows| ==> rows[i].date in ks by {
      forall i | 0 <= i < |rows| ensures rows[i].date in ks {
        DayInDays(lo, n, rows[i].date);
      }
    }
    KeyTotalCovers(ks, rows);
    VolumeOfTotals(ks, rows);
  }

  lemma {:induction false} DayInDays(lo: int, n: nat, d: int)
    requires lo <= d < lo + n
    ensures d in Days(lo, n)
  {
    assert Days(lo, n)[d - lo] == d;
  }

  /** The range `process_volume_data` completes holds every lifting date. */
  lemma {:induction false} LiftDatesInRange(rows: seq<Weightlifting.LiftResult>)
    requires rows != []
    ensures forall i :: 0 <= i < |rows| ==>
      MinInt(LiftDates(rows)) <= rows[i].date < MinInt(LiftDates(rows)) + (MaxInt(LiftDates(rows)) - MinInt(LiftDates(rows)) + 1)
  {
    MinMaxCorrect(LiftDates(rows));
    forall i | 0 <= i < |rows| ensures MinInt(LiftDates(rows)) <= rows[i].date <= MaxInt(LiftDates(rows)) {
      assert LiftDates(rows)[i] == rows[i].date;
    }
  }

  /** `process_volume_data` keeps the total: its daily volumes, rest days
      included, add up to the summed one-rep maxima of every lift. */
  lemma {:induction false} ProcessVolumeDataTotal(rows: seq<Weightlifting.LiftResult>)
    ensures rows != [] ==>
      exists w :: ProcessVolumeDataSpec(rows) == Ok(ValueTable("one_rep_max", AsDayValues(w))) && Volume(w) == TotalOf(rows)
  {
    if rows != [] {
      var lo := MinInt(LiftDates(rows));
      var hi := MaxInt(LiftDates(rows));
      ProcessVolumeDataCorrect(rows, lo, hi);
      LiftDatesInRange(rows);
      DailyVolumeTotal(rows, lo, hi - lo + 1);
      var w := Totals(Days(lo, hi - lo + 1), rows);
      assert ProcessVolumeDataSpec(rows) == Ok(ValueTable("one_rep_max", AsDayValues(w)));
    }
  }
}
