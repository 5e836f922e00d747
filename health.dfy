/** `clean_dataframe` and `HealthDataProcessor` (prepare_data/process_data.py):
    column-name cleaning, the Apple Health record clean-up, the date-range
    completion of `join_dates`, the workout filter and the pace arithmetic.

    Timestamps are whole seconds since 1970-01-01 00:00 (an `Instant`); a
    calendar date is a day number, day 0 being 1970-01-01. */
module Health {
  import opened Common
  import opened Text

  type Instant = int

  // ---------------------------------------------------------------------
  // clean_dataframe

  /** One column name after `str.lower()` then `str.replace(" ", "_")`. */
  function CleanColumnName(c: string): string
  {
    ReplaceAll(Lower(c), " ", "_")
  }

  /** The cleaned name has the same length; every space became "_" and every
      other character was lower-cased. */
  lemma {:induction false} CleanColumnNameAt(c: string)
    ensures |CleanColumnName(c)| == |c|
    ensures forall i :: 0 <= i < |c| ==>
      CleanColumnName(c)[i] == (if c[i] == ' ' then '_' else LowerChar(c[i]))
  {
    ReplaceSingleChar(Lower(c), ' ', '_');
  }

  /** Cleaning a clean name changes nothing. */
  lemma {:induction false} CleanColumnNameIdempotent(c: string)
    ensures CleanColumnName(CleanColumnName(c)) == CleanColumnName(c)
  {
    var once := CleanColumnName(c);
    CleanColumnNameAt(c);
    CleanColumnNameAt(once);
    assert forall i :: 0 <= i < |once| ==> CleanColumnName(once)[i] == once[i];
  }

  /** `data.columns = data.columns.str.lower().str.replace(" ", "_")`: the
      column index is rewritten in place, name by name; the number and the
      order of the columns stay. */
  method CleanDataframe(columns: array<string>)
    modifies columns
    ensures forall i :: 0 <= i < columns.Length ==> columns[i] == CleanColumnName(old(columns[i]))
  {
    forall i | 0 <= i < columns.Length {
      columns[i] := CleanColumnName(columns[i]);
    }
  }

  // ---------------------------------------------------------------------
  // process_record_data

  /** One row of the Apple Health record export.  `value` is the result of
      `pd.to_numeric(..., errors="coerce")`: missing when the text is not a
      number. */
  datatype RawRecord = RawRecord(
    kind: Option<string>,
    sourceName: Option<string>,
    sourceVersion: Option<string>,
    unit: Option<string>,
    creationDate: Instant,
    startDate: Instant,
    endDate: Instant,
    value: Option<real>,
    device: Option<string>)

  /** A cleaned record: `sourceversion`, `creationdate` and `startdate` are
      dropped, the date parts of `enddate` are added. */
  datatype HealthRecord = HealthRecord(
    kind: Option<string>,
    sourceName: Option<string>,
    unit: Option<string>,
    value: Option<real>,
    endDate: Instant,
    date: int,
    wday: int,
    hour: int,
    minute: int,
    device: Option<string>)

  const TypePrefix := "HKQuantityTypeIdentifier"
  const DeviceKey := "name:"

  /** `.dt.date` as a day number. */
  function DayOf(t: Instant): int
  {
    t / 86400
  }

  /** `.dt.weekday`: Monday is 0; day 0 (1970-01-01) was a Thursday. */
  function Weekday(t: Instant): int
  {
    (DayOf(t) + 3) % 7
  }

  /** `str.replace("HKQuantityTypeIdentifier", "")` on a cell; NaN stays NaN. */
  function CleanType(t: Option<string>): Option<string>
  {
    match t
    case None => None
    case Some(s) => Some(ReplaceAll(s, TypePrefix, ""))
  }

  /** First index at or after `k` holding ',' or a newline (which `.` does
      not match), or the end of the string. */
  function StopIndex(s: string, k: nat): (j: nat)
    requires k <= |s|
    ensures k <= j <= |s|
    ensures forall m :: k <= m < j ==> s[m] != ',' && s[m] != '\n'
    ensures j < |s| ==> s[j] == ',' || s[j] == '\n'
    decreases |s| - k
  {
    if k == |s| || s[k] == ',' || s[k] == '\n' then k else StopIndex(s, k + 1)
  }

  /** The pattern `name:(.*?),` matches starting at `i`. */
  predicate MatchesAt(s: string, i: nat)
  {
    OccursAt(s, DeviceKey, i) && StopIndex(s, i + 5) < |s| && s[StopIndex(s, i + 5)] == ','
  }

  function ExtractFrom(s: string, i: nat): Option<string>
    requires i <= |s|
    decreases |s| - i
  {
    if i == |s| then None
    else if MatchesAt(s, i) then Some(s[i + 5..StopIndex(s, i + 5)])
    else ExtractFrom(s, i + 1)
  }

  /** `str.extract(r"name:(.*?),", expand=False)` on one string: the group of
      the leftmost match. */
  function ExtractDevice(s: string): Option<string>
  {
    ExtractFrom(s, 0)
  }

  /** The regular expression read literally: at `i` stand "name:", then `d`,
      then ','; `d` holds neither ',' (the lazy `.*?` stops at the first
      comma) nor a newline (which `.` does not match). */
  predicate IsDeviceMatch(s: string, i: nat, d: string)
  {
    && i + 5 + |d| < |s|
    && s[i..i + 5] == DeviceKey
    && s[i + 5..i + 5 + |d|] == d
    && s[i + 5 + |d|] == ','
    && forall m :: 0 <= m < |d| ==> d[m] != ',' && d[m] != '\n'
  }

  lemma {:induction false} MatchesAtIff(s: string, i: nat)
    ensures MatchesAt(s, i) ==> IsDeviceMatch(s, i, s[i + 5..StopIndex(s, i + 5)])
    ensures forall d :: IsDeviceMatch(s, i, d) ==> MatchesAt(s, i) && d == s[i + 5..StopIndex(s, i + 5)]
  {
    forall d | IsDeviceMatch(s, i, d)
      ensures MatchesAt(s, i) && d == s[i + 5..StopIndex(s, i + 5)]
    {
      var j := StopIndex(s, i + 5);
      var e := i + 5 + |d|;
      assert forall m :: i + 5 <= m < e ==> s[m] == d[m - i - 5];
      assert j == e;
    }
  }

  lemma {:induction false} ExtractFromCorrect(s: string, i: nat)
    requires i <= |s|
    ensures ExtractFrom(s, i).Some? ==>
      exists k :: i <= k && IsDeviceMatch(s, k, ExtractFrom(s, i).value)
        && forall j, e :: i <= j < k ==> !IsDeviceMatch(s, j, e)
    ensures ExtractFrom(s, i).None? ==>
      forall j, e :: i <= j ==> !IsDeviceMatch(s, j, e)
    decreases |s| - i
  {
    MatchesAtIff(s, i);
    if i == |s| {
      forall j, e | i <= j ensures !IsDeviceMatch(s, j, e) {
      }
    } else if MatchesAt(s, i) {
      assert IsDeviceMatch(s, i, ExtractFrom(s, i).value);
    } else {
      ExtractFromCorrect(s, i + 1);
      NoMatchAt(s, i);
    }
  }

  /** Where "name:…," does not start at `i`, no device match starts there. */
  lemma {:induction false} NoMatchAt(s: string, i: nat)
    requires i < |s| && !MatchesAt(s, i)
    ensures ExtractFrom(s, i) == ExtractFrom(s, i + 1)
    ensures forall e :: !IsDeviceMatch(s, i, e)
  {
    MatchesAtIff(s, i);
  }

  /** The extracted device is the group of the leftmost match of
      `name:(.*?),`, and it is missing exactly when nothing matches. */
  lemma {:induction false} ExtractDeviceCorrect(s: string)
    ensures ExtractDevice(s).Some? ==>
      exists k :: IsDeviceMatch(s, k, ExtractDevice(s).value)
        && forall j, e :: j < k ==> !IsDeviceMatch(s, j, e)
    ensures ExtractDevice(s).None? <==> forall j, e :: !IsDeviceMatch(s, j, e)
  {
    ExtractFromCorrect(s, 0);
  }

  function CleanDevice(d: Option<string>): Option<string>
  {
    match d
    case None => None
    case Some(s) => ExtractDevice(s)
  }

  function ProcessRecord(r: RawRecord): HealthRecord
  {
    HealthRecord(
      CleanType(r.kind), r.sourceName, r.unit, r.value, r.endDate,
      DayOf(r.endDate), Weekday(r.endDate),
      (r.endDate % 86400) / 3600, (r.endDate % 3600) / 60,
      CleanDevice(r.device))
  }

  /** `process_record_data`: record by record, in order. */
  function ProcessRecordData(data: seq<RawRecord>): (r: seq<HealthRecord>)
    ensures |r| == |data|
  {
    seq(|data|, i requires 0 <= i < |data| => ProcessRecord(data[i]))
  }

  /** Each cleaned record keeps the value and end time of its raw record,
      its `type` is the raw type with every "HKQuantityTypeIdentifier" cut
      out, its `device` is the extracted name, and its date parts are those
      of `enddate`. */
  lemma {:induction false} ProcessRecordDataFields(data: seq<RawRecord>, i: nat)
    requires i < |data|
    ensures var r := ProcessRecordData(data)[i];
      && r.value == data[i].value && r.endDate == data[i].endDate
      && (data[i].kind.None? ==> r.kind.None?)
      && (data[i].kind.Some? ==>
            && r.kind.Some?
            && var pieces := Split(data[i].kind.value, TypePrefix);
            && data[i].kind.value == Join(pieces, TypePrefix)
            && r.kind.value == Join(pieces, "")
            && forall p :: p in pieces ==> !Contains(p, TypePrefix))
      && (data[i].device.None? ==> r.device.None?)
      && (data[i].device.Some? ==> r.device == ExtractDevice(data[i].device.value))
      && r.date * 86400 <= r.endDate < (r.date + 1) * 86400
      && 0 <= r.wday < 7 && 0 <= r.hour < 24 && 0 <= r.minute < 60
  {
    if data[i].kind.Some? {
      ReplaceAllCharacterized(data[i].kind.value, TypePrefix, "");
    }
  }

  /** A Health Kit identifier loses exactly its prefix:
      "HKQuantityTypeIdentifierBodyMass" becomes "BodyMass". */
  lemma {:induction false} CleanTypeStripsPrefix(name: string)
    requires !Contains(name, TypePrefix)
    ensures CleanType(Some(TypePrefix + name)) == Some(name)
  {
    RemoveLeading(TypePrefix, name);
  }

  // ---------------------------------------------------------------------
  // join_dates

  datatype Dated<T> = Dated(date: int, row: T)
  datatype MetricDated<T> = MetricDated(date: int, metric: string, row: T)
  /** A row of the left join onto the date sequence; `row` is missing for a
      day without data. */
  datatype DayRow<T> = DayRow(date: int, row: Option<T>)
  datatype DayMetricRow<T> = DayMetricRow(date: int, metric: string, row: Option<T>)

  function MinDate<T>(data: seq<Dated<T>>): (m: int)
    requires |data| > 0
    ensures forall i :: 0 <= i < |data| ==> m <= data[i].date
    ensures exists i :: 0 <= i < |data| && m == data[i].date
  {
    if |data| == 1 then data[0].date
    else
      var m := MinDate(data[1..]);
      assert forall i :: 1 <= i < |data| ==> data[i] == data[1..][i - 1];
      if data[0].date <= m then data[0].date else m
  }

  /** The data rows dated `d`, in order. */
  function RowsOn<T>(data: seq<Dated<T>>, d: int): seq<T>
  {
    if data == [] then []
    else (if data[0].date == d then [data[0].row] else []) + RowsOn(data[1..], d)
  }

  lemma {:induction false} RowsOnMembers<T>(data: seq<Dated<T>>, d: int, x: T)
    ensures x in RowsOn(data, d) <==> Dated(d, x) in data
  {
    if data != [] {
      RowsOnMembers(data[1..], d, x);
      assert data == [data[0]] + data[1..];
    }
  }

  /** The left-join rows for one day: each matching data row, or one row
      with the data columns missing. */
  function JoinDay<T>(d: int, data: seq<Dated<T>>): seq<DayRow<T>>
  {
    var m := RowsOn(data, d);
    if m == [] then [DayRow(d, None)]
    else seq(|m|, k requires 0 <= k < |m| => DayRow(d, Some(m[k])))
  }

  /** `pd.merge(date_seq, data, how="left", on="date")` for the date sequence
      `pd.date_range(lo, hi, freq="D")`: day by day, the rows of each day. */
  function JoinRange<T>(lo: int, hi: int, data: seq<Dated<T>>): seq<DayRow<T>>
    decreases hi - lo
  {
    if lo > hi then [] else JoinDay(lo, data) + JoinRange(lo + 1, hi, data)
  }

  /** `join_dates(data)` in single-metric mode.  `today` stands for
      `datetime.now().date()`.  With no rows the minimum date is NaT and
      `pd.date_range` raises. */
  function JoinDates<T>(data: seq<Dated<T>>, today: int): Result<seq<DayRow<T>>>
  {
    if data == [] then Err(ValueError("Neither `start` nor `end` can be NaT"))
    else Ok(JoinRange(MinDate(data), today, data))
  }

  /** A joined row is a data row of its day, or stands for a day without
      data. */
  ghost predicate IsJoinRow<T>(y: DayRow<T>, data: seq<Dated<T>>)
  {
    match y.row
    case Some(x) => Dated(y.date, x) in data
    case None => forall k :: 0 <= k < |data| ==> data[k].date != y.date
  }

  /** Some row of `r` is dated `d`. */
  ghost predicate HasDay<T>(r: seq<DayRow<T>>, d: int)
  {
    exists k :: 0 <= k < |r| && r[k].date == d
  }

  predicate DatesAscending<T>(r: seq<DayRow<T>>)
  {
    forall a, b :: 0 <= a < b < |r| ==> r[a].date <= r[b].date
  }

  lemma {:induction false} JoinDayMembers<T>(d: int, data: seq<Dated<T>>)
    ensures forall y :: y in JoinDay(d, data) ==> y.date == d && IsJoinRow(y, data)
    ensures forall k :: 0 <= k < |data| && data[k].date == d ==>
      DayRow(d, Some(data[k].row)) in JoinDay(d, data)
    ensures |JoinDay(d, data)| > 0
  {
    var m := RowsOn(data, d);
    forall x ensures x in m <==> Dated(d, x) in data {
      RowsOnMembers(data, d, x);
    }
    forall k | 0 <= k < |data| && data[k].date == d ensures DayRow(d, Some(data[k].row)) in JoinDay(d, data) {
      assert data[k] == Dated(d, data[k].row);
      assert data[k].row in m;
      var j :| 0 <= j < |m| && m[j] == data[k].row;
      assert JoinDay(d, data)[j] == DayRow(d, Some(data[k].row));
    }
    forall y | y in JoinDay(d, data) ensures y.date == d && IsJoinRow(y, data) {
      if m != [] {
        var j :| 0 <= j < |m| && JoinDay(d, data)[j] == y;
        assert y == DayRow(d, Some(m[j]));
        assert m[j] in m;
        RowsOnMembers(data, d, m[j]);
      }
    }
    if m == [] {
      forall k | 0 <= k < |data| ensures data[k].date != d {
        RowsOnMembers(data, d, data[k].row);
      }
    }
  }

  lemma {:induction false} JoinRangeMembers<T>(lo: int, hi: int, data: seq<Dated<T>>)
    ensures forall y :: y in JoinRange(lo, hi, data) ==> lo <= y.date <= hi && IsJoinRow(y, data)
    ensures forall d :: lo <= d <= hi ==> HasDay(JoinRange(lo, hi, data), d)
    ensures forall k :: 0 <= k < |data| && lo <= data[k].date <= hi ==>
      DayRow(data[k].date, Some(data[k].row)) in JoinRange(lo, hi, data)
    decreases hi - lo
  {
    if lo <= hi {
      JoinRangeMembers(lo + 1, hi, data);
      JoinDayMembers(lo, data);
      var h := JoinDay(lo, data);
      var t := JoinRange(lo + 1, hi, data);
      var r := h + t;
      assert r[0] == h[0] && h[0] in h;
      forall d | lo < d <= hi ensures HasDay(r, d) {
        assert HasDay(t, d);
        var k :| 0 <= k < |t| && t[k].date == d;
        assert r[|h| + k] == t[k];
      }
    }
  }

  /** Pointwise form of the third clause of `JoinRangeMembers`. */
  lemma {:induction false} JoinRangeKeeps<T>(lo: int, hi: int, data: seq<Dated<T>>, k: nat)
    requires k < |data| && lo <= data[k].date <= hi
    ensures exists i :: 0 <= i < |JoinRange(lo, hi, data)| && JoinRange(lo, hi, data)[i] == DayRow(data[k].date, Some(data[k].row))
  {
    JoinRangeMembers(lo, hi, data);
    assert DayRow(data[k].date, Some(data[k].row)) in JoinRange(lo, hi, data);
  }

  lemma {:induction false} JoinRangeAscending<T>(lo: int, hi: int, data: seq<Dated<T>>)
    ensures DatesAscending(JoinRange(lo, hi, data))
    decreases hi - lo
  {
    if lo <= hi {
      JoinRangeAscending(lo + 1, hi, data);
      JoinRangeMembers(lo + 1, hi, data);
      JoinDayMembers(lo, data);
      var h := JoinDay(lo, data);
      var t := JoinRange(lo + 1, hi, data);
      var r := h + t;
      forall a, b | 0 <= a < b < |r| ensures r[a].date <= r[b].date {
        if b < |h| {
          assert r[a] in h && r[b] in h;
        } else if a < |h| {
          assert r[a] in h;
          assert r[b] == t[b - |h|];
          assert r[b] in t;
        } else {
          assert r[a] == t[a - |h|] && r[b] == t[b - |h|];
        }
      }
    }
  }

  /** `join_dates` in single-metric mode: the result runs over every day from
      the earliest data date to `today`, in date order; no day lies outside
      that range; every data row dated up to `today` is kept; every row is a
      data row of its day or stands for a day without data. */
  lemma {:induction false} JoinDatesCorrect<T>(data: seq<Dated<T>>, today: int)
    ensures JoinDates(data, today).Err? <==> data == []
    ensures JoinDates(data, today).Ok? ==>
      var r := JoinDates(data, today).value;
      var lo := MinDate(data);
      && (forall d :: lo <= d <= today ==> HasDay(r, d))
      && (forall y :: y in r ==> lo <= y.date <= today && IsJoinRow(y, data))
      && DatesAscending(r)
      && (forall k :: 0 <= k < |data| && data[k].date <= today ==> DayRow(data[k].date, Some(data[k].row)) in r)
  {
    if data != [] {
      JoinRangeMembers(MinDate(data), today, data);
      JoinRangeAscending(MinDate(data), today, data);
    }
  }

  /** The metric lists that `metric_type` selects in multi-metric mode. */
  function MetricsFor(metricType: string): Option<seq<string>>
  {
    if metricType == "energy" then
      Some(["Calorie expenditure", "Calorie intake", "Calorie deficit (absolute)", "Calorie deficit (relative)"])
    else if metricType == "nutrition" then
      Some(["Protein", "Sugar", "Water", "Carbohydrates", "Fat"])
    else if metricType == "volume" then
      Some(["hypertrophy_adjusted_volume", "volume"])
    else None
  }

  function MetricRowsOn<T>(data: seq<MetricDated<T>>, d: int, m: string): seq<T>
  {
    if data == [] then []
    else
      (if data[0].date == d && data[0].metric == m then [data[0].row] else [])
      + MetricRowsOn(data[1..], d, m)
  }

  lemma {:induction false} MetricRowsOnMembers<T>(data: seq<MetricDated<T>>, d: int, m: string, x: T)
    ensures x in MetricRowsOn(data, d, m) <==> MetricDated(d, m, x) in data
  {
    if data != [] {
      MetricRowsOnMembers(data[1..], d, m, x);
      assert data == [data[0]] + data[1..];
    }
  }

  function JoinDayMetric<T>(d: int, m: string, data: seq<MetricDated<T>>): seq<DayMetricRow<T>>
  {
    var rows := MetricRowsOn(data, d, m);
    if rows == [] then [DayMetricRow(d, m, None)]
    else seq(|rows|, k requires 0 <= k < |rows| => DayMetricRow(d, m, Some(rows[k])))
  }

  /** The rows of one day, metric by metric in list order. */
  function JoinMetrics<T>(d: int, metrics: seq<string>, data: seq<MetricDated<T>>): seq<DayMetricRow<T>>
  {
    if metrics == [] then [] else JoinDayMetric(d, metrics[0], data) + JoinMetrics(d, metrics[1..], data)
  }

  /** The merge of the date × metric product (date-major) with the data on
      (date, metric). */
  function JoinRangeMetrics<T>(lo: int, hi: int, metrics: seq<string>, data: seq<MetricDated<T>>): seq<DayMetricRow<T>>
    decreases hi - lo
  {
    if lo > hi then [] else JoinMetrics(lo, metrics, data) + JoinRangeMetrics(lo + 1, hi, metrics, data)
  }

  /** `MinDate` over the metric rows' dates. */
  function MinMetricDate<T>(data: seq<MetricDated<T>>): (m: int)
    requires |data| > 0
    ensures forall i :: 0 <= i < |data| ==> m <= data[i].date
    ensures exists i :: 0 <= i < |data| && m == data[i].date
  {
    var dated := seq(|data|, i requires 0 <= i < |data| => Dated(data[i].date, data[i]));
    var m := MinDate(dated);
    assert forall i :: 0 <= i < |data| ==> dated[i].date == data[i].date;
    m
  }

  /** `join_dates(data, multiple_metrics=True, metric_type=...)`.  The
      metric-list arguments are never read, because the list is chosen again
      from `metric_type` alone; any other `metric_type` leaves `metrics`
      unbound, which surfaces only after the empty-data error. */
  function JoinDatesByMetric<T>(data: seq<MetricDated<T>>, metricType: string, today: int): Result<seq<DayMetricRow<T>>>
  {
    if data == [] then Err(ValueError("Neither `start` nor `end` can be NaT"))
    else match MetricsFor(metricType)
      case None => Err(NameError("metrics"))
      case Some(metrics) => Ok(JoinRangeMetrics(MinMetricDate(data), today, metrics, data))
  }

  /** Some row of `r` is dated `d` and is about metric `m`. */
  ghost predicate HasDayMetric<T>(r: seq<DayMetricRow<T>>, d: int, m: string)
  {
    exists k :: 0 <= k < |r| && r[k].date == d && r[k].metric == m
  }

  ghost predicate IsMetricJoinRow<T>(y: DayMetricRow<T>, data: seq<MetricDated<T>>)
  {
    match y.row
    case Some(x) => MetricDated(y.date, y.metric, x) in data
    case None => forall k :: 0 <= k < |data| ==> data[k].date != y.date || data[k].metric != y.metric
  }

  lemma {:induction false} JoinDayMetricMembers<T>(d: int, m: string, data: seq<MetricDated<T>>)
    ensures forall y :: y in JoinDayMetric(d, m, data) ==> y.date == d && y.metric == m && IsMetricJoinRow(y, data)
    ensures forall k :: 0 <= k < |data| && data[k].date == d && data[k].metric == m ==>
      DayMetricRow(d, m, Some(data[k].row)) in JoinDayMetric(d, m, data)
    ensures |JoinDayMetric(d, m, data)| > 0
  {
    var rows := MetricRowsOn(data, d, m);
    forall x ensures x in rows <==> MetricDated(d, m, x) in data {
      MetricRowsOnMembers(data, d, m, x);
    }
    forall k | 0 <= k < |data| && data[k].date == d && data[k].metric == m
      ensures DayMetricRow(d, m, Some(data[k].row)) in JoinDayMetric(d, m, data)
    {
      assert data[k] == MetricDated(d, m, data[k].row);
      assert data[k].row in rows;
      var j :| 0 <= j < |rows| && rows[j] == data[k].row;
      assert JoinDayMetric(d, m, data)[j] == DayMetricRow(d, m, Some(data[k].row));
    }
    forall y | y in JoinDayMetric(d, m, data)
      ensures y.date == d && y.metric == m && IsMetricJoinRow(y, data)
    {
      if rows != [] {
        var j :| 0 <= j < |rows| && JoinDayMetric(d, m, data)[j] == y;
        assert y == DayMetricRow(d, m, Some(rows[j]));
        assert rows[j] in rows;
        MetricRowsOnMembers(data, d, m, rows[j]);
      }
    }
    if rows == [] {
      forall k | 0 <= k < |data| ensures data[k].date != d || data[k].metric != m {
        MetricRowsOnMembers(data, d, m, data[k].row);
      }
    }
  }

  lemma {:induction false} JoinMetricsMembers<T>(d: int, metrics: seq<string>, data: seq<MetricDated<T>>)
    ensures forall y :: y in JoinMetrics(d, metrics, data) ==>
      y.date == d && y.metric in metrics && IsMetricJoinRow(y, data)
    ensures forall m :: m in metrics ==> HasDayMetric(JoinMetrics(d, metrics, data), d, m)
    ensures forall k :: 0 <= k < |data| && data[k].date == d && data[k].metric in metrics ==>
      DayMetricRow(d, data[k].metric, Some(data[k].row)) in JoinMetrics(d, metrics, data)
  {
    if metrics != [] {
      JoinMetricsMembers(d, metrics[1..], data);
      JoinDayMetricMembers(d, metrics[0], data);
      var h := JoinDayMetric(d, metrics[0], data);
      var t := JoinMetrics(d, metrics[1..], data);
      var r := h + t;
      assert r[0] == h[0] && h[0] in h;
      forall m | m in metrics[1..] ensures HasDayMetric(r, d, m) {
        assert HasDayMetric(t, d, m);
        var k :| 0 <= k < |t| && t[k].date == d && t[k].metric == m;
        assert r[|h| + k] == t[k];
      }
      assert metrics == [metrics[0]] + metrics[1..];
    }
  }

  lemma {:induction false} JoinRangeMetricsMembers<T>(lo: int, hi: int, metrics: seq<string>, data: seq<MetricDated<T>>)
    ensures forall y :: y in JoinRangeMetrics(lo, hi, metrics, data) ==>
      lo <= y.date <= hi && y.metric in metrics && IsMetricJoinRow(y, data)
    ensures forall d, m :: lo <= d <= hi && m in metrics ==> HasDayMetric(JoinRangeMetrics(lo, hi, metrics, data), d, m)
    ensures forall k :: 0 <= k < |data| && lo <= data[k].date <= hi && data[k].metric in metrics ==>
      DayMetricRow(data[k].date, data[k].metric, Some(data[k].row)) in JoinRangeMetrics(lo, hi, metrics, data)
    decreases hi - lo
  {
    if lo <= hi {
      JoinRangeMetricsMembers(lo + 1, hi, metrics, data);
      JoinMetricsMembers(lo, metrics, data);
      var h := JoinMetrics(lo, metrics, data);
      var t := JoinRangeMetrics(lo + 1, hi, metrics, data);
      var r := h + t;
      forall d, m | lo <= d <= hi && m in metrics ensures HasDayMetric(r, d, m) {
        if d == lo {
          assert HasDayMetric(h, d, m);
          var k :| 0 <= k < |h| && h[k].date == d && h[k].metric == m;
          assert r[k] == h[k];
        } else {
          assert HasDayMetric(t, d, m);
          var k :| 0 <= k < |t| && t[k].date == d && t[k].metric == m;
          assert r[|h| + k] == t[k];
        }
      }
    }
  }

  /** Multi-metric mode: every (day, metric) pair of the range and the
      selected list has a row, every row's pair is such a pair and the row is
      a data row of that pair or stands for a pair without data, every data
      row whose pair is in range is kept, and an unknown `metric_type` is the
      unbound-name error. */
  lemma {:induction false} JoinDatesByMetricCorrect<T>(data: seq<MetricDated<T>>, metricType: string, today: int)
    ensures JoinDatesByMetric(data, metricType, today).Err? <==> data == [] || MetricsFor(metricType).None?
    ensures JoinDatesByMetric(data, metricType, today).Ok? ==>
      var r := JoinDatesByMetric(data, metricType, today).value;
      var metrics := MetricsFor(metricType).value;
      var lo := MinMetricDate(data);
      && (forall d, m :: lo <= d <= today && m in metrics ==> HasDayMetric(r, d, m))
      && (forall y :: y in r ==> lo <= y.date <= today && y.metric in metrics && IsMetricJoinRow(y, data))
      && (forall k :: 0 <= k < |data| && data[k].date <= today && data[k].metric in metrics ==>
            DayMetricRow(data[k].date, data[k].metric, Some(data[k].row)) in r)
  {
    if JoinDatesByMetric(data, metricType, today).Ok? {
      JoinRangeMetricsMembers(MinMetricDate(data), today, MetricsFor(metricType).value, data);
    }
  }

  // ---------------------------------------------------------------------
  // extract_workout_data

  /** One row of the workout export (the columns the method reads);
      `duration` is `pd.to_numeric(..., errors="coerce")`. */
  datatype RawWorkout = RawWorkout(
    activityType: Option<string>,
    startDate: Instant,
    endDate: Instant,
    duration: Option<real>)

  /** The three output columns: `type`, `date` (the start time), `duration`. */
  datatype Workout = Workout(kind: string, date: Instant, duration: Option<real>)

  const ActivityPrefix := "HKWorkoutActivityType"
  const CardioTypes := ["Running", "Swimming", "Cycling", "Hiking", "StairClimbing",
                        "CardioDance", "Rowing", "Other", "Cooldown", "Yoga"]

  /** The `type` column after removing "HKWorkoutActivityType". */
  function ActivityType(w: RawWorkout): Option<string>
  {
    match w.activityType
    case None => None
    case Some(t) => Some(ReplaceAll(t, ActivityPrefix, ""))
  }

  predicate IsSoccer(w: RawWorkout)
  {
    ActivityType(w) == Some("Soccer")
  }

  predicate IsCardio(w: RawWorkout)
  {
    ActivityType(w).Some? && ActivityType(w).value in CardioTypes
  }

  predicate IsKeptWorkout(w: RawWorkout)
  {
    IsSoccer(w) || IsCardio(w)
  }

  function Reshape(w: RawWorkout): Workout
    requires ActivityType(w).Some?
  {
    Workout(ActivityType(w).value, w.startDate, w.duration)
  }

  function SoccerRows(data: seq<RawWorkout>): seq<Workout>
  {
    if data == [] then []
    else (if IsSoccer(data[0]) then [Reshape(data[0])] else []) + SoccerRows(data[1..])
  }

  function CardioRows(data: seq<RawWorkout>): seq<Workout>
  {
    if data == [] then []
    else (if IsCardio(data[0]) then [Reshape(data[0])] else []) + CardioRows(data[1..])
  }

  /** `extract_workout_data`: the Soccer rows, then the other listed types,
      each in input order. */
  function ExtractWorkoutData(data: seq<RawWorkout>): seq<Workout>
  {
    SoccerRows(data) + CardioRows(data)
  }

  function CountKept(data: seq<RawWorkout>): nat
  {
    if data == [] then 0 else (if IsKeptWorkout(data[0]) then 1 else 0) + CountKept(data[1..])
  }

  lemma {:induction false} SoccerRowsCorrect(data: seq<RawWorkout>)
    ensures forall y :: y in SoccerRows(data) ==>
      y.kind == "Soccer" && exists i :: 0 <= i < |data| && IsSoccer(data[i]) && y == Reshape(data[i])
    ensures forall i :: 0 <= i < |data| && IsSoccer(data[i]) ==> Reshape(data[i]) in SoccerRows(data)
  {
    SoccerRowsFrom(data);
    SoccerRowsKeep(data);
  }

  lemma {:induction false} SoccerRowsFrom(data: seq<RawWorkout>)
    ensures forall y :: y in SoccerRows(data) ==>
      y.kind == "Soccer" && exists i :: 0 <= i < |data| && IsSoccer(data[i]) && y == Reshape(data[i])
  {
    if data != [] {
      var head := if IsSoccer(data[0]) then [Reshape(data[0])] else [];
      var rest := data[1..];
      SoccerRowsFrom(rest);
      assert SoccerRows(data) == head + SoccerRows(rest);
      forall y | y in SoccerRows(data) ensures y.kind == "Soccer" &&
        exists i :: 0 <= i < |data| && IsSoccer(data[i]) && y == Reshape(data[i])
      {
        if y in head {
          assert IsSoccer(data[0]) && y == Reshape(data[0]);
        } else {
          assert y in SoccerRows(rest);
          var i :| 0 <= i < |rest| && IsSoccer(rest[i]) && y == Reshape(rest[i]);
          assert rest[i] == data[i + 1];
        }
      }
    }
  }

  lemma {:induction false} SoccerRowsKeep(data: seq<RawWorkout>)
    ensures forall i :: 0 <= i < |data| && IsSoccer(data[i]) ==> Reshape(data[i]) in SoccerRows(data)
  {
    if data != [] {
      var head := if IsSoccer(data[0]) then [Reshape(data[0])] else [];
      var rest := data[1..];
      SoccerRowsKeep(rest);
      assert SoccerRows(data) == head + SoccerRows(rest);
      forall i | 0 <= i < |data| && IsSoccer(data[i]) ensures Reshape(data[i]) in SoccerRows(data) {
        if i > 0 {
          assert rest[i - 1] == data[i];
          assert Reshape(data[i]) in SoccerRows(rest);
        } else {
          assert Reshape(data[i]) in head;
        }
      }
    }
  }

  lemma {:induction false} CardioRowsCorrect(data: seq<RawWorkout>)
    ensures forall y :: y in CardioRows(data) ==>
      y.kind in CardioTypes && exists i :: 0 <= i < |data| && IsCardio(data[i]) && y == Reshape(data[i])
    ensures forall i :: 0 <= i < |data| && IsCardio(data[i]) ==> Reshape(data[i]) in CardioRows(data)
  {
    CardioRowsFrom(data);
    CardioRowsKeep(data);
  }

  lemma {:induction false} CardioRowsFrom(data: seq<RawWorkout>)
    ensures forall y :: y in CardioRows(data) ==>
      y.kind in CardioTypes && exists i :: 0 <= i < |data| && IsCardio(data[i]) && y == Reshape(data[i])
  {
    if data != [] {
      var head := if IsCardio(data[0]) then [Reshape(data[0])] else [];
      var rest := data[1..];
      CardioRowsFrom(rest);
      assert CardioRows(data) == head + CardioRows(rest);
      forall y | y in CardioRows(data) ensures y.kind in CardioTypes &&
        exists i :: 0 <= i < |data| && IsCardio(data[i]) && y == Reshape(data[i])
      {
        if y in head {
          assert IsCardio(data[0]) && y == Reshape(data[0]);
        } else {
          assert y in CardioRows(rest);
          var i :| 0 <= i < |rest| && IsCardio(rest[i]) && y == Reshape(rest[i]);
          assert rest[i] == data[i + 1];
        }
      }
    }
  }

  lemma {:induction false} CardioRowsKeep(data: seq<RawWorkout>)
    ensures forall i :: 0 <= i < |data| && IsCardio(data[i]) ==> Reshape(data[i]) in CardioRows(data)
  {
    if data != [] {
      var head := if IsCardio(data[0]) then [Reshape(data[0])] else [];
      var rest := data[1..];
      CardioRowsKeep(rest);
      assert CardioRows(data) == head + CardioRows(rest);
      forall i | 0 <= i < |data| && IsCardio(data[i]) ensures Reshape(data[i]) in CardioRows(data) {
        if i > 0 {
          assert rest[i - 1] == data[i];
          assert Reshape(data[i]) in CardioRows(rest);
        } else {
          assert Reshape(data[i]) in head;
        }
      }
    }
  }

  lemma {:induction false} ExtractWorkoutCount(data: seq<RawWorkout>)
    ensures |ExtractWorkoutData(data)| == CountKept(data)
  {
    if data != [] {
      ExtractWorkoutCount(data[1..]);
      assert "Soccer" !in CardioTypes;
    }
  }

  /** `extract_workout_data` keeps exactly the rows whose cleaned type is
      "Soccer" or one of the ten listed types, one output row per kept input
      row; the Soccer rows come first; each output row is its input row's
      type, start time and duration. */
  lemma {:induction false} ExtractWorkoutDataCorrect(data: seq<RawWorkout>)
    ensures var r := ExtractWorkoutData(data);
      && |r| == CountKept(data)
      && (forall k :: 0 <= k < |r| ==> r[k].kind == "Soccer" || r[k].kind in CardioTypes)
      && (forall a, b :: 0 <= a < b < |r| && r[b].kind == "Soccer" ==> r[a].kind == "Soccer")
      && (forall k :: 0 <= k < |r| ==> exists i :: 0 <= i < |data| && IsKeptWorkout(data[i]) && r[k] == Reshape(data[i]))
      && (forall i :: 0 <= i < |data| && IsKeptWorkout(data[i]) ==> Reshape(data[i]) in r)
  {
    ExtractWorkoutCount(data);
    SoccerRowsCorrect(data);
    CardioRowsCorrect(data);
    var s := SoccerRows(data);
    var c := CardioRows(data);
    var r := s + c;
    assert "Soccer" !in CardioTypes;
    forall k | 0 <= k < |r| ensures r[k].kind == "Soccer" || r[k].kind in CardioTypes {
      if k < |s| { assert r[k] in s; } else { assert r[k] in c; }
    }
    forall a, b | 0 <= a < b < |r| && r[b].kind == "Soccer" ensures r[a].kind == "Soccer" {
      assert r[a] in s;
    }
    forall k | 0 <= k < |r|
      ensures exists i :: 0 <= i < |data| && IsKeptWorkout(data[i]) && r[k] == Reshape(data[i])
    {
      if k < |s| {
        assert r[k] in s;
        var i :| 0 <= i < |data| && IsSoccer(data[i]) && r[k] == Reshape(data[i]);
        assert IsKeptWorkout(data[i]);
      } else {
        assert r[k] in c;
        var i :| 0 <= i < |data| && IsCardio(data[i]) && r[k] == Reshape(data[i]);
        assert IsKeptWorkout(data[i]);
      }
    }
  }

  // ---------------------------------------------------------------------
  // get_data_for_workout, convert_to_minute_proportion, get_pace_for_workout

  datatype Sample = Sample(startDate: Instant, endDate: Instant, value: Option<real>)
  datatype Span = Span(startDate: Instant, endDate: Instant)

  predicate Within(x: Sample, w: Span)
  {
    x.startDate >= w.startDate && x.endDate <= w.endDate
  }

  function SamplesWithin(data: seq<Sample>, w: Span): (r: seq<Sample>)
    ensures |r| <= |data|
  {
    if data == [] then []
    else (if Within(data[0], w) then [data[0]] else []) + SamplesWithin(data[1..], w)
  }

  /** `get_data_for_workout(data, workout)`: `workout` is a one-row table;
      `.item()` raises unless the column holds exactly one value. */
  function GetDataForWorkout(data: seq<Sample>, workout: seq<Span>): Result<seq<Sample>>
  {
    if |workout| != 1 then Err(ValueError("can only convert an array of size 1 to a Python scalar"))
    else Ok(SamplesWithin(data, workout[0]))
  }

  lemma {:induction false} SamplesWithinCorrect(data: seq<Sample>, w: Span)
    ensures forall x :: x in SamplesWithin(data, w) <==> x in data && Within(x, w)
  {
    if data != [] {
      SamplesWithinCorrect(data[1..], w);
      assert data == [data[0]] + data[1..];
    }
  }

  /** The workout's samples are exactly the data samples that start no
      earlier and end no later than the workout; a workout table that is not
      a single row is the `.item()` error. */
  lemma {:induction false} GetDataForWorkoutCorrect(data: seq<Sample>, workout: seq<Span>)
    ensures GetDataForWorkout(data, workout).Err? <==> |workout| != 1
    ensures GetDataForWorkout(data, workout).Ok? ==>
      forall x :: x in GetDataForWorkout(data, workout).value <==> x in data && Within(x, workout[0])
  {
    if |workout| == 1 {
      SamplesWithinCorrect(data, workout[0]);
    }
  }

  /** Python `int(x)`: truncation toward zero. */
  function Trunc(x: real): int
  {
    if x >= 0.0 then x.Floor else -((-x).Floor)
  }

  /** Python `x % 1` on a float: the remainder takes the sign of the divisor,
      so it lies in [0, 1) even for negative `x`. */
  function ModOne(x: real): real
  {
    x - x.Floor as real
  }

  /** `convert_to_minute_proportion`: whole part, then the fraction scaled by
      60/100. */
  function ConvertToMinuteProportion(x: real): real
  {
    Trunc(x) as real + ModOne(x) / 100.0 * 60.0
  }

  /** For a non-negative pace the whole minutes stay, the fraction becomes
      "seconds" below 0.60, and the original pace is recovered by undoing the
      scaling. */
  lemma {:induction false} MinuteProportionRoundTrip(x: real)
    requires x >= 0.0
    ensures var r := ConvertToMinuteProportion(x);
      && r.Floor == x.Floor
      && 0.0 <= r - r.Floor as real < 0.6
      && x == r.Floor as real + (r - r.Floor as real) / 0.6
  {
    var r := ConvertToMinuteProportion(x);
    var f := ModOne(x);
    assert 0.0 <= f < 1.0;
    assert r == x.Floor as real + f * 0.6;
    assert x.Floor as real <= r < x.Floor as real + 1.0;
  }

  /** `get_pace_for_workout`: 0.0 for a zero distance; otherwise the
      minute-proportion of duration / distance.  A NaN reaching `int()`
      raises. */
  function GetPaceForWorkout(duration: Option<real>, totalDistance: Option<real>): (r: Result<real>)
    ensures totalDistance == Some(0.0) ==> r == Ok(0.0)
    ensures r.Err? <==> totalDistance != Some(0.0) && (duration.None? || totalDistance.None?)
    ensures totalDistance != Some(0.0) && duration.Some? && totalDistance.Some? ==>
      r == Ok(ConvertToMinuteProportion(duration.value / totalDistance.value))
  {
    if totalDistance == Some(0.0) then Ok(0.0)
    else if duration.None? || totalDistance.None? then Err(ValueError("cannot convert float NaN to integer"))
    else Ok(ConvertToMinuteProportion(duration.value / totalDistance.value))
  }

  /** A non-negative pace keeps its whole minutes, holds the fraction as
      "seconds" below 0.60, and gives back duration / distance once the
      scaling is undone. */
  lemma {:induction false} GetPaceForWorkoutMinutes(duration: Option<real>, totalDistance: Option<real>)
    ensures duration.Some? && totalDistance.Some? && totalDistance.value != 0.0 &&
            duration.value / totalDistance.value >= 0.0 ==>
      var q := duration.value / totalDistance.value;
      var r := GetPaceForWorkout(duration, totalDistance);
      && r.Ok?
      && r.value.Floor == q.Floor
      && 0.0 <= r.value - r.value.Floor as real < 0.6
      && q == r.value.Floor as real + (r.value - r.value.Floor as real) / 0.6
  {
    if duration.Some? && totalDistance.Some? && totalDistance.value != 0.0 &&
       duration.value / totalDistance.value >= 0.0 {
      MinuteProportionRoundTrip(duration.value / totalDistance.value);
    }
  }
}
