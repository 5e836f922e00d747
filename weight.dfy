/** The body-mass series: `WeightDataProcessor.wrangle_weight_data`
    (prepare_data/process_data.py) and `PerformCalculations.wrangle_weight_data`
    (prepare_data/perform_calculations.py).  Both keep the BodyMass records,
    complete the date range with `join_dates`, fill the gaps, convert
    kilograms to pounds and keep the smallest value of each day; they differ
    in how the gaps are filled. */
module Weight {
  import opened Common
  import opened Order
  import opened Health

  /** Pounds per kilogram. */
  const LbPerKg: real := 2.20462

  /** One output row: a day and its body mass in pounds. */
  datatype WeightDay = WeightDay(date: int, bodyMass: Option<real>)

  predicate IsBodyMass(r: HealthRecord)
  {
    r.kind == Some("BodyMass")
  }

  /** `data[data["type"] == "BodyMass"].loc[:, ["date", "value"]]`. */
  function BodyMassValues(records: seq<HealthRecord>): seq<Dated<Option<real>>>
  {
    if records == [] then []
    else
      (if IsBodyMass(records[0]) then [Dated(records[0].date, records[0].value)] else [])
      + BodyMassValues(records[1..])
  }

  /** Every BodyMass record contributes its date and value. */
  lemma {:induction false} BodyMassValuesHas(records: seq<HealthRecord>, r: HealthRecord)
    requires r in records && IsBodyMass(r)
    ensures Dated(r.date, r.value) in BodyMassValues(records)
  {
    if records[0] != r {
      BodyMassValuesHas(records[1..], r);
    }
  }

  /** Every selected row comes from a BodyMass record. */
  lemma {:induction false} BodyMassValuesFrom(records: seq<HealthRecord>, x: Dated<Option<real>>)
    requires x in BodyMassValues(records)
    ensures exists r :: r in records && IsBodyMass(r) && x == Dated(r.date, r.value)
  {
    if !(IsBodyMass(records[0]) && x == Dated(records[0].date, records[0].value)) {
      BodyMassValuesFrom(records[1..], x);
      var r :| r in records[1..] && IsBodyMass(r) && x == Dated(r.date, r.value);
      assert r in records;
    }
  }

  lemma {:induction false} BodyMassValuesEmpty(records: seq<HealthRecord>)
    ensures BodyMassValues(records) == [] <==> forall r :: r in records ==> !IsBodyMass(r)
  {
    if records != [] {
      BodyMassValuesEmpty(records[1..]);
      assert records == [records[0]] + records[1..];
    }
  }

  /** The `value` column of the joined frame: missing on a gap day or where
      the record's value was not a number. */
  function JoinedValues(joined: seq<DayRow<Option<real>>>): (vs: seq<Option<real>>)
    ensures |vs| == |joined|
  {
    seq(|joined|, i requires 0 <= i < |joined| =>
      match joined[i].row
      case None => None
      case Some(v) => v)
  }

  function JoinedDates<T>(joined: seq<DayRow<T>>): (ds: seq<int>)
    ensures |ds| == |joined|
  {
    seq(|joined|, i requires 0 <= i < |joined| => joined[i].date)
  }

  /** A gap filler applied to a column: the filler's value is taken only
      where the column is missing, so present values never change.  pandas'
      `interpolate` and `fillna(method="ffill")` both behave this way. */
  function Settle(vs: seq<Option<real>>, fill: seq<Option<real>> -> seq<Option<real>>): (r: seq<Option<real>>)
    ensures |r| == |vs|
    ensures forall i :: 0 <= i < |vs| && vs[i].Some? ==> r[i] == vs[i]
  {
    var f := fill(vs);
    seq(|vs|, i requires 0 <= i < |vs| =>
      if vs[i].Some? then vs[i] else if i < |f| then f[i] else None)
  }

  /** The cells of `vs` at the positions dated `d`, in order. */
  function ValuesOn(dates: seq<int>, vs: seq<Option<real>>, d: int): seq<Option<real>>
    requires |dates| == |vs|
  {
    if dates == [] then []
    else
      var n := |dates| - 1;
      ValuesOn(dates[..n], vs[..n], d) + (if dates[n] == d then [vs[n]] else [])
  }

  lemma {:induction false} ValuesOnMembers(dates: seq<int>, vs: seq<Option<real>>, d: int)
    requires |dates| == |vs|
    ensures forall v :: v in ValuesOn(dates, vs, d) <==>
      exists i :: 0 <= i < |dates| && dates[i] == d && vs[i] == v
  {
    if dates != [] {
      var n := |dates| - 1;
      ValuesOnMembers(dates[..n], vs[..n], d);
      forall v | (exists i :: 0 <= i < |dates| && dates[i] == d && vs[i] == v)
        ensures v in ValuesOn(dates, vs, d)
      {
        var i :| 0 <= i < |dates| && dates[i] == d && vs[i] == v;
        if i < n {
          assert dates[..n][i] == d && vs[..n][i] == v;
        }
      }
    }
  }

  /** `groupby("date").agg(min)`: one row per distinct date, ascending, with
      the NaN-skipping minimum of that date's cells. */
  function GroupMinByDate(dates: seq<int>, vs: seq<Option<real>>): seq<WeightDay>
    requires |dates| == |vs|
  {
    var keys := DistinctSorted(dates, IntLess);
    seq(|keys|, k requires 0 <= k < |keys| => WeightDay(keys[k], MinOf(ValuesOn(dates, vs, keys[k]))))
  }

  /** The group-by-minimum has exactly one row per date that occurs, in
      ascending order; a row's value is present exactly when some cell of
      that date is; it is one of those cells and no cell of that date is
      smaller. */
  lemma {:induction false} GroupMinByDateCorrect(dates: seq<int>, vs: seq<Option<real>>)
    requires |dates| == |vs|
    ensures var r := GroupMinByDate(dates, vs);
      && DaysAscending(r)
      && (forall d :: d in dates <==> HasWeightDay(r, d))
      && (forall k :: 0 <= k < |r| ==>
            && (r[k].bodyMass.Some? <==> exists i :: 0 <= i < |dates| && dates[i] == r[k].date && vs[i].Some?)
            && (r[k].bodyMass.Some? ==> exists i :: 0 <= i < |dates| && dates[i] == r[k].date && vs[i] == r[k].bodyMass)
            && (forall i :: 0 <= i < |dates| && dates[i] == r[k].date && vs[i].Some? ==>
                  r[k].bodyMass.value <= vs[i].value))
  {
    GroupMinByDateDays(dates, vs);
    var r := GroupMinByDate(dates, vs);
    forall k | 0 <= k < |r|
      ensures && (r[k].bodyMass.Some? <==> exists i :: 0 <= i < |dates| && dates[i] == r[k].date && vs[i].Some?)
              && (r[k].bodyMass.Some? ==> exists i :: 0 <= i < |dates| && dates[i] == r[k].date && vs[i] == r[k].bodyMass)
              && (forall i :: 0 <= i < |dates| && dates[i] == r[k].date && vs[i].Some? ==>
                    r[k].bodyMass.value <= vs[i].value)
    {
      GroupMinRow(dates, vs, k);
    }
  }

  /** The group-by-minimum has exactly one row per date that occurs, in
      ascending order. */
  lemma {:induction false} GroupMinByDateDays(dates: seq<int>, vs: seq<Option<real>>)
    requires |dates| == |vs|
    ensures DaysAscending(GroupMinByDate(dates, vs))
    ensures forall d :: d in dates <==> HasWeightDay(GroupMinByDate(dates, vs), d)
  {
    IntLessStrict();
    DistinctSortedCorrect(dates, IntLess);
    var keys := DistinctSorted(dates, IntLess);
    var r := GroupMinByDate(dates, vs);
    forall d | d in dates ensures HasWeightDay(r, d) {
      var k :| 0 <= k < |keys| && keys[k] == d;
      assert r[k].date == d;
    }
    forall d | HasWeightDay(r, d) ensures d in dates {
      var k :| 0 <= k < |r| && r[k].date == d;
      assert keys[k] in keys;
    }
  }

  /** Row `k` of the group-by-minimum: its value is present exactly when
      some cell of its date is, is one of those cells, and no cell of that
      date is smaller. */
  lemma {:induction false} GroupMinRow(dates: seq<int>, vs: seq<Option<real>>, k: nat)
    requires |dates| == |vs|
    requires k < |GroupMinByDate(dates, vs)|
    ensures var r := GroupMinByDate(dates, vs);
      && (r[k].bodyMass.Some? <==> exists i :: 0 <= i < |dates| && dates[i] == r[k].date && vs[i].Some?)
      && (r[k].bodyMass.Some? ==> exists i :: 0 <= i < |dates| && dates[i] == r[k].date && vs[i] == r[k].bodyMass)
      && (forall i :: 0 <= i < |dates| && dates[i] == r[k].date && vs[i].Some? ==>
            r[k].bodyMass.Some? && r[k].bodyMass.value <= vs[i].value)
  {
    var keys := DistinctSorted(dates, IntLess);
    var r := GroupMinByDate(dates, vs);
    var d := keys[k];
    assert r[k].date == d;
    var on := ValuesOn(dates, vs, d);
    assert r[k].bodyMass == MinOf(on);
    ValuesOnMembers(dates, vs, d);
    MinOfIsLeast(on);
    if r[k].bodyMass.Some? {
      var j :| 0 <= j < |on| && on[j] == MinOf(on);
      assert on[j] in on;
    }
    forall i | 0 <= i < |dates| && dates[i] == d && vs[i].Some?
      ensures r[k].bodyMass.Some? && r[k].bodyMass.value <= vs[i].value
    {
      assert vs[i] in on;
      var j :| 0 <= j < |on| && on[j] == vs[i];
    }
  }

  /** `data["value"] * 2.20462`, cell by cell. */
  function ToPounds(vs: seq<Option<real>>): (r: seq<Option<real>>)
    ensures |r| == |vs|
    ensures forall i :: 0 <= i < |vs| ==> r[i] == Scale(vs[i], LbPerKg)
  {
    seq(|vs|, i requires 0 <= i < |vs| => Scale(vs[i], LbPerKg))
  }

  /** The steps both variants share once the records are clean: BodyMass
      rows, date-range completion up to `today`, gap filling by `fill`,
      conversion to pounds, minimum per day. */
  function WeightSeries(records: seq<HealthRecord>, today: int,
                        fill: seq<Option<real>> -> seq<Option<real>>): Result<seq<WeightDay>>
  {
    match JoinDates(BodyMassValues(records), today)
    case Err(e) => Err(e)
    case Ok(joined) =>
      Ok(GroupMinByDate(JoinedDates(joined), ToPounds(Settle(JoinedValues(joined), fill))))
  }

  /** `WeightDataProcessor.wrangle_weight_data`; pandas' linear
      `interpolate` is the parameter `interpolate`. */
  function WrangleWeightData(records: seq<HealthRecord>, today: int,
                             interpolate: seq<Option<real>> -> seq<Option<real>>): Result<seq<WeightDay>>
  {
    WeightSeries(records, today, interpolate)
  }

  /** Some row of the series is dated `d`. */
  ghost predicate HasWeightDay(w: seq<WeightDay>, d: int)
  {
    exists k :: 0 <= k < |w| && w[k].date == d
  }

  predicate DaysAscending(w: seq<WeightDay>)
  {
    forall a, b :: 0 <= a < b < |w| ==> w[a].date < w[b].date
  }

  /** Earliest BodyMass date. */
  function FirstBodyMassDate(records: seq<HealthRecord>): int
    requires BodyMassValues(records) != []
  {
    MinDate(BodyMassValues(records))
  }

  /** Every BodyMass record dated `d` carries a value. */
  predicate AllPresentOn(records: seq<HealthRecord>, d: int)
  {
    forall r :: r in records && IsBodyMass(r) && r.date == d ==> r.value.Some?
  }

  /** The weight series fails exactly when there is no BodyMass record;
      otherwise it has one row per day from the first BodyMass date to
      `today`, in ascending order and nothing else. */
  lemma {:induction false} WeightSeriesDays(records: seq<HealthRecord>, today: int, fill: seq<Option<real>> -> seq<Option<real>>)
    ensures WeightSeries(records, today, fill).Err? <==> forall r :: r in records ==> !IsBodyMass(r)
    ensures WeightSeries(records, today, fill).Ok? ==>
      var w := WeightSeries(records, today, fill).value;
      var lo := FirstBodyMassDate(records);
      && DaysAscending(w)
      && (forall d :: lo <= d <= today <==> HasWeightDay(w, d))
  {
    var data := BodyMassValues(records);
    BodyMassValuesEmpty(records);
    JoinDatesCorrect(data, today);
    if data != [] {
      var joined := JoinDates(data, today).value;
      JoinedDatesSpan(data, today);
      GroupMinByDateDays(JoinedDates(joined), ToPounds(Settle(JoinedValues(joined), fill)));
    }
  }

  /** The joined frame holds exactly the days from the first data day to
      `today`. */
  lemma {:induction false} JoinedDatesSpan<T>(data: seq<Dated<T>>, today: int)
    requires data != []
    ensures JoinDates(data, today).Ok?
    ensures forall d :: d in JoinedDates(JoinDates(data, today).value) <==> MinDate(data) <= d <= today
  {
    JoinDatesCorrect(data, today);
    var joined := JoinDates(data, today).value;
    var dates := JoinedDates(joined);
    var lo := MinDate(data);
    forall d ensures d in dates <==> lo <= d <= today {
      if lo <= d <= today {
        assert HasDay(joined, d);
        var k :| 0 <= k < |joined| && joined[k].date == d;
        assert dates[k] == d;
      }
      if d in dates {
        var k :| 0 <= k < |dates| && dates[k] == d;
        assert joined[k] in joined;
      }
    }
  }

  /** On a day `d` that has data, every joined position dated `d` holds a
      data row of that day. */
  lemma {:induction false} JoinedRowsOnDataDay(data: seq<Dated<Option<real>>>, today: int, d: int, j0: nat)
    requires data != [] && j0 < |data| && data[j0].date == d
    ensures forall i :: 0 <= i < |JoinRange(MinDate(data), today, data)| && JoinRange(MinDate(data), today, data)[i].date == d ==>
      && JoinRange(MinDate(data), today, data)[i].row.Some?
      && Dated(d, JoinRange(MinDate(data), today, data)[i].row.value) in data
  {
    var joined := JoinRange(MinDate(data), today, data);
    JoinRangeMembers(MinDate(data), today, data);
    forall i | 0 <= i < |joined| && joined[i].date == d
      ensures joined[i].row.Some? && Dated(d, joined[i].row.value) in data
    {
      assert joined[i] in joined;
    }
  }

  /** The joined frame of the BodyMass rows. */
  function BodyMassJoined(records: seq<HealthRecord>, today: int): seq<DayRow<Option<real>>>
    requires BodyMassValues(records) != []
  {
    JoinRange(MinDate(BodyMassValues(records)), today, BodyMassValues(records))
  }

  /** On a day with BodyMass records, all with a value, every joined
      position of that day holds one of those records' values. */
  lemma {:induction false} JoinedValuesFromRecords(records: seq<HealthRecord>, today: int, d: int, r0: HealthRecord)
    requires BodyMassValues(records) != []
    requires r0 in records && IsBodyMass(r0) && r0.date == d
    requires AllPresentOn(records, d)
    ensures forall i :: 0 <= i < |BodyMassJoined(records, today)| && BodyMassJoined(records, today)[i].date == d ==>
      && JoinedValues(BodyMassJoined(records, today))[i].Some?
      && exists r :: r in records && IsBodyMass(r) && r.date == d && JoinedValues(BodyMassJoined(records, today))[i] == r.value
  {
    var data := BodyMassValues(records);
    var joined := BodyMassJoined(records, today);
    assert joined == JoinRange(MinDate(data), today, data);
    var vals := JoinedValues(joined);
    BodyMassValuesHas(records, r0);
    var j0 :| 0 <= j0 < |data| && data[j0] == Dated(d, r0.value);
    JoinedRowsOnDataDay(data, today, d, j0);
    forall i | 0 <= i < |joined| && joined[i].date == d
      ensures vals[i].Some? && exists r :: r in records && IsBodyMass(r) && r.date == d && vals[i] == r.value
    {
      var x := joined[i].row.value;
      BodyMassValuesFrom(records, Dated(d, x));
      var r :| r in records && IsBodyMass(r) && Dated(d, x) == Dated(r.date, r.value);
      assert vals[i] == x;
    }
  }

  /** Every BodyMass record dated up to `today` has its value at some
      joined position of its day. */
  lemma {:induction false} RecordValuesJoined(records: seq<HealthRecord>, today: int, r: HealthRecord)
    requires BodyMassValues(records) != []
    requires r in records && IsBodyMass(r) && r.date <= today
    ensures exists i ::
      && 0 <= i < |BodyMassJoined(records, today)|
      && BodyMassJoined(records, today)[i].date == r.date
      && JoinedValues(BodyMassJoined(records, today))[i] == r.value
  {
    var data := BodyMassValues(records);
    BodyMassValuesHas(records, r);
    var joined := BodyMassJoined(records, today);
    var j :| 0 <= j < |data| && data[j] == Dated(r.date, r.value);
    JoinRangeKeeps(MinDate(data), today, data, j);
    var i :| 0 <= i < |joined| && joined[i] == DayRow(r.date, Some(r.value));
    assert joined[i].date == r.date;
    assert JoinedValues(joined)[i] == r.value;
  }


  /** Every row of the series is dated no later than `today`. */
  lemma {:induction false} WeightSeriesUpToToday(records: seq<HealthRecord>, today: int,
                            fill: seq<Option<real>> -> seq<Option<real>>, w: seq<WeightDay>, k: nat)
    requires WeightSeries(records, today, fill) == Ok(w)
    requires k < |w|
    ensures BodyMassValues(records) != []
    ensures w[k].date <= today
  {
    BodyMassValuesEmpty(records);
    WeightSeriesDays(records, today, fill);
    assert HasWeightDay(w, w[k].date);
  }

  /** The series is the group-by-minimum of the settled joined column in
      pounds. */
  lemma {:induction false} WeightSeriesGroups(records: seq<HealthRecord>, today: int,
                            fill: seq<Option<real>> -> seq<Option<real>>, w: seq<WeightDay>)
    requires WeightSeries(records, today, fill) == Ok(w)
    requires BodyMassValues(records) != []
    ensures var joined := BodyMassJoined(records, today);
      w == GroupMinByDate(JoinedDates(joined), ToPounds(Settle(JoinedValues(joined), fill)))
  {
    JoinDatesCorrect(BodyMassValues(records), today);
  }

  /** On a day that has BodyMass records, all with a value, the series holds
      one of them converted to pounds. */
  lemma {:induction false} WeightSeriesAttained(records: seq<HealthRecord>, today: int,
                            fill: seq<Option<real>> -> seq<Option<real>>, w: seq<WeightDay>, k: nat)
    requires WeightSeries(records, today, fill) == Ok(w)
    requires k < |w|
    requires exists r :: r in records && IsBodyMass(r) && r.date == w[k].date
    requires AllPresentOn(records, w[k].date)
    ensures w[k].bodyMass.Some?
    ensures exists r :: r in records && IsBodyMass(r) && r.date == w[k].date && w[k].bodyMass.value == r.value.value * LbPerKg
  {
    var d := w[k].date;
    var r0 :| r0 in records && IsBodyMass(r0) && r0.date == d;
    WeightSeriesBelow(records, today, fill, w, k, r0);
    WeightSeriesUpToToday(records, today, fill, w, k);
    WeightSeriesGroups(records, today, fill, w);
    var joined := BodyMassJoined(records, today);
    var dates := JoinedDates(joined);
    var pounds := ToPounds(Settle(JoinedValues(joined), fill));
    GroupMinRow(dates, pounds, k);
    var im :| 0 <= im < |dates| && dates[im] == d && pounds[im] == w[k].bodyMass;
    JoinedPoundsFrom(records, today, fill, r0, im);
  }

  /** On a day whose BodyMass records all carry a value, each joined
      position of that day holds one of them in pounds once the column is
      settled. */
  lemma {:induction false} JoinedPoundsFrom(records: seq<HealthRecord>, today: int,
                            fill: seq<Option<real>> -> seq<Option<real>>, r0: HealthRecord, i: nat)
    requires BodyMassValues(records) != []
    requires r0 in records && IsBodyMass(r0) && AllPresentOn(records, r0.date)
    requires i < |BodyMassJoined(records, today)| && BodyMassJoined(records, today)[i].date == r0.date
    ensures exists r ::
      && r in records && IsBodyMass(r) && r.date == r0.date
      && ToPounds(Settle(JoinedValues(BodyMassJoined(records, today)), fill))[i] == Some(r.value.value * LbPerKg)
  {
    var joined := BodyMassJoined(records, today);
    var vals := JoinedValues(joined);
    JoinedValuesFromRecords(records, today, r0.date, r0);
    var r :| r in records && IsBodyMass(r) && r.date == r0.date && vals[i] == r.value;
    assert Settle(vals, fill)[i] == vals[i];
  }

  /** On a day whose BodyMass records all carry a value, no record of that
      day weighs less than the series says. */
  lemma {:induction false} WeightSeriesBelow(records: seq<HealthRecord>, today: int,
                            fill: seq<Option<real>> -> seq<Option<real>>, w: seq<WeightDay>, k: nat, r: HealthRecord)
    requires WeightSeries(records, today, fill) == Ok(w)
    requires k < |w|
    requires r in records && IsBodyMass(r) && r.date == w[k].date
    requires AllPresentOn(records, w[k].date)
    ensures w[k].bodyMass.Some? && w[k].bodyMass.value <= r.value.value * LbPerKg
  {
    WeightSeriesUpToToday(records, today, fill, w, k);
    WeightSeriesGroups(records, today, fill, w);
    var joined := BodyMassJoined(records, today);
    var dates := JoinedDates(joined);
    var pounds := ToPounds(Settle(JoinedValues(joined), fill));
    JoinedPoundsOf(records, today, fill, r);
    var i :| 0 <= i < |dates| && dates[i] == r.date && pounds[i] == Some(r.value.value * LbPerKg);
    GroupMinRow(dates, pounds, k);
  }

  /** A BodyMass record with a value, dated up to `today`, appears in pounds
      at some joined position of its day once the column is settled. */
  lemma {:induction false} JoinedPoundsOf(records: seq<HealthRecord>, today: int,
                            fill: seq<Option<real>> -> seq<Option<real>>, r: HealthRecord)
    requires BodyMassValues(records) != []
    requires r in records && IsBodyMass(r) && r.date <= today && r.value.Some?
    ensures var joined := BodyMassJoined(records, today);
      exists i ::
        && 0 <= i < |joined| && JoinedDates(joined)[i] == r.date
        && ToPounds(Settle(JoinedValues(joined), fill))[i] == Some(r.value.value * LbPerKg)
  {
    var joined := BodyMassJoined(records, today);
    var vals := JoinedValues(joined);
    RecordValuesJoined(records, today, r);
    var i :| 0 <= i < |joined| && joined[i].date == r.date && vals[i] == r.value;
    assert Settle(vals, fill)[i] == vals[i];
    assert JoinedDates(joined)[i] == r.date;
  }

  /** On a day that has BodyMass records, all with a value, the series holds
      the smallest of them converted to pounds, whatever the gap filler
      does. */
  lemma {:induction false} WeightSeriesMinimum(records: seq<HealthRecord>, today: int,
                            fill: seq<Option<real>> -> seq<Option<real>>, w: seq<WeightDay>, k: nat)
    requires WeightSeries(records, today, fill) == Ok(w)
    requires k < |w|
    requires exists r :: r in records && IsBodyMass(r) && r.date == w[k].date
    requires AllPresentOn(records, w[k].date)
    ensures w[k].bodyMass.Some?
    ensures exists r :: r in records && IsBodyMass(r) && r.date == w[k].date && w[k].bodyMass.value == r.value.value * LbPerKg
    ensures forall r :: r in records && IsBodyMass(r) && r.date == w[k].date ==> w[k].bodyMass.value <= r.value.value * LbPerKg
  {
    WeightSeriesAttained(records, today, fill, w, k);
    forall r | r in records && IsBodyMass(r) && r.date == w[k].date
      ensures w[k].bodyMass.value <= r.value.value * LbPerKg
    {
      WeightSeriesBelow(records, today, fill, w, k, r);
    }
  }

  // ---------------------------------------------------------------------
  // PerformCalculations.wrangle_weight_data

  /** `fillna(method="ffill")`: each missing cell takes the previous cell's
      filled value. */
  function ForwardFill(vs: seq<Option<real>>): (r: seq<Option<real>>)
    ensures |r| == |vs|
  {
    if vs == [] then []
    else
      var p := ForwardFill(vs[..|vs| - 1]);
      var last := vs[|vs| - 1];
      p + [if last.Some? || p == [] then last else p[|p| - 1]]
  }

  /** The nearest present cell at or before position `i`, if any. */
  function LastPresent(vs: seq<Option<real>>, i: nat): Option<real>
    requires i < |vs|
  {
    if vs[i].Some? then vs[i] else if i == 0 then None else LastPresent(vs, i - 1)
  }

  /** `LastPresent` means what its name says: a present cell stays; a result
      is a present cell `j` with no present cell after it up to `i`; it is
      missing exactly when no cell up to `i` is present. */
  lemma {:induction false} LastPresentMeaning(vs: seq<Option<real>>, i: nat)
    requires i < |vs|
    ensures vs[i].Some? ==> LastPresent(vs, i) == vs[i]
    ensures LastPresent(vs, i).None? <==> forall j :: 0 <= j <= i ==> vs[j].None?
    ensures LastPresent(vs, i).Some? ==>
      exists j :: 0 <= j <= i && vs[j] == LastPresent(vs, i) && forall m :: j < m <= i ==> vs[m].None?
  {
    if vs[i].None? && i > 0 {
      LastPresentMeaning(vs, i - 1);
    }
  }

  lemma {:induction false} LastPresentPrefix(vs: seq<Option<real>>, n: nat, i: nat)
    requires i < n <= |vs|
    ensures LastPresent(vs[..n], i) == LastPresent(vs, i)
  {
    if vs[i].None? && i > 0 {
      LastPresentPrefix(vs, n, i - 1);
    }
  }

  /** Forward fill puts the nearest earlier present value in cell `i`. */
  lemma {:induction false} ForwardFillAt(vs: seq<Option<real>>, i: nat)
    requires i < |vs|
    ensures ForwardFill(vs)[i] == LastPresent(vs, i)
  {
    var n := |vs| - 1;
    var init := vs[..n];
    var p := ForwardFill(init);
    var last := vs[n];
    assert ForwardFill(vs) == p + [if last.Some? || p == [] then last else p[|p| - 1]];
    if i < n {
      ForwardFillAt(init, i);
      assert ForwardFill(vs)[i] == p[i];
      LastPresentPrefix(vs, n, i);
    } else if last.None? && n > 0 {
      ForwardFillAt(init, n - 1);
      LastPresentPrefix(vs, n, n - 1);
      assert ForwardFill(vs)[i] == p[n - 1];
      LastPresentStep(vs, i);
    } else {
      assert ForwardFill(vs)[i] == last;
      LastPresentStep(vs, i);
    }
  }

  /** One step of `LastPresent`. */
  lemma {:induction false} LastPresentStep(vs: seq<Option<real>>, i: nat)
    requires i < |vs|
    ensures vs[i].Some? || i == 0 ==> LastPresent(vs, i) == vs[i]
    ensures vs[i].None? && i > 0 ==> LastPresent(vs, i) == LastPresent(vs, i - 1)
  {
  }

  /** Forward fill puts the nearest earlier present value in every cell. */
  lemma {:induction false} ForwardFillIsLastPresent(vs: seq<Option<real>>)
    ensures forall i :: 0 <= i < |vs| ==> ForwardFill(vs)[i] == LastPresent(vs, i)
  {
    forall i | 0 <= i < |vs| ensures ForwardFill(vs)[i] == LastPresent(vs, i) {
      ForwardFillAt(vs, i);
    }
  }

  /** A forward-filled cell is the nearest present cell at or before it:
      present cells stay, a filled cell copies a present cell `j` with no
      present cell between `j` and it, and a cell stays missing exactly when
      no cell up to it is present. */
  lemma {:induction false} ForwardFillCorrect(vs: seq<Option<real>>, i: nat)
    requires i < |vs|
    ensures var r := ForwardFill(vs);
      && (vs[i].Some? ==> r[i] == vs[i])
      && (r[i].None? <==> forall j :: 0 <= j <= i ==> vs[j].None?)
      && (r[i].Some? ==> exists j :: 0 <= j <= i && vs[j] == r[i] && forall m :: j < m <= i ==> vs[m].None?)
  {
    ForwardFillIsLastPresent(vs);
    LastPresentMeaning(vs, i);
  }

  /** Forward fill is a gap filler in the sense of `Settle`: settling a
      column with it gives the forward fill itself. */
  lemma {:induction false} SettleForwardFill(vs: seq<Option<real>>)
    ensures Settle(vs, ForwardFill) == ForwardFill(vs)
  {
    ForwardFillIsLastPresent(vs);
    forall i | 0 <= i < |vs| ensures Settle(vs, ForwardFill)[i] == ForwardFill(vs)[i] {
      LastPresentMeaning(vs, i);
    }
  }

  /** `data["value"].fillna(method="ffill", inplace=True)` on the column. */
  method ForwardFillInPlace(col: array<Option<real>>)
    modifies col
    ensures col[..] == ForwardFill(old(col[..]))
  {
    ghost var orig := col[..];
    for i := 0 to col.Length
      invariant forall j :: 0 <= j < i ==> col[j] == LastPresent(orig, j)
      invariant forall j :: i <= j < col.Length ==> col[j] == orig[j]
    {
      if col[i].None? && i > 0 {
        col[i] := col[i - 1];
      }
    }
    ForwardFillIsLastPresent(orig);
    assert forall j :: 0 <= j < col.Length ==> col[..][j] == ForwardFill(orig)[j];
  }

  /** `PerformCalculations.wrangle_weight_data` as written: its first step
      calls `self.hdp.clean_health_data`, which `HealthDataProcessor` does
      not define, so every call raises. */
  function PerformWrangleWeightDataAsWritten(raw: seq<RawRecord>, today: int): Result<seq<WeightDay>>
  {
    Err(AttributeError("clean_health_data"))
  }

  lemma {:induction false} PerformWrangleWeightDataAlwaysFails(raw: seq<RawRecord>, today: int)
    ensures PerformWrangleWeightDataAsWritten(raw, today) == Err(AttributeError("clean_health_data"))
  {
  }

  /** The evidently intended `PerformCalculations.wrangle_weight_data`: the
      records are cleaned by `process_record_data`, then the shared series
      is computed with the gaps forward-filled. */
  function PerformWrangleWeightData(raw: seq<RawRecord>, today: int): Result<seq<WeightDay>>
  {
    WeightSeries(ProcessRecordData(raw), today, ForwardFill)
  }

  /** The corrected variant produces its result from the raw records exactly
      when some record's type, once cleaned, is BodyMass, and then it has one
      row per day in range, ascending; on a day whose BodyMass records all
      carry a value it holds their converted minimum. */
  lemma {:induction false} PerformWrangleWeightDataCorrect(raw: seq<RawRecord>, today: int)
    ensures PerformWrangleWeightData(raw, today).Ok? <==>
      exists r :: r in ProcessRecordData(raw) && IsBodyMass(r)
    ensures PerformWrangleWeightData(raw, today).Ok? ==>
      var w := PerformWrangleWeightData(raw, today).value;
      var lo := FirstBodyMassDate(ProcessRecordData(raw));
      && DaysAscending(w)
      && (forall d :: lo <= d <= today <==> HasWeightDay(w, d))
    ensures PerformWrangleWeightData(raw, today).Ok? ==>
      var w := PerformWrangleWeightData(raw, today).value;
      var records := ProcessRecordData(raw);
      forall k ::
        (0 <= k < |w| && (exists r :: r in records && IsBodyMass(r) && r.date == w[k].date) &&
         AllPresentOn(records, w[k].date)) ==>
        && w[k].bodyMass.Some?
        && (exists r :: r in records && IsBodyMass(r) && r.date == w[k].date && w[k].bodyMass.value == r.value.value * LbPerKg)
        && (forall r :: r in records && IsBodyMass(r) && r.date == w[k].date ==> w[k].bodyMass.value <= r.value.value * LbPerKg)
  {
    var records := ProcessRecordData(raw);
    WeightSeriesDays(records, today, ForwardFill);
    if PerformWrangleWeightData(raw, today).Ok? {
      var w := PerformWrangleWeightData(raw, today).value;
      forall k | 0 <= k < |w| && (exists r :: r in records && IsBodyMass(r) && r.date == w[k].date) &&
        AllPresentOn(records, w[k].date)
        ensures w[k].bodyMass.Some?
        ensures exists r :: r in records && IsBodyMass(r) && r.date == w[k].date && w[k].bodyMass.value == r.value.value * LbPerKg
        ensures forall r :: r in records && IsBodyMass(r) && r.date == w[k].date ==> w[k].bodyMass.value <= r.value.value * LbPerKg
      {
        WeightSeriesMinimum(records, today, ForwardFill, w, k);
      }
    }
  }
}
