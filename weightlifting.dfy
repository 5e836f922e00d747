/** Strength-training metrics of `WeightliftingDataProcessor`: the left join
    of logged sets with the body-mass series, the Epley one-rep maximum of
    `calculate_1RM`, the per-exercise running and 90-day rolling maxima of
    `calculate_derivative_metrics`, and the row filter of
    `filter_exercise_data`.

    A date is a day number; `weight`, `reps` and body mass are optional
    reals (NaN is `None`). */
module Weightlifting {
  import opened Common
  import opened Order
  import opened Text
  import Weight

  /** One logged set, with the columns `clean_exercise_data` keeps. */
  datatype SetRow = SetRow(
    date: int,
    name: Option<string>,
    setOrder: Option<int>,
    weight: Option<real>,
    reps: Option<real>)

  /** A set joined with the body mass of its day; `oneRepMax` is `None`
      until `calculate_1RM` creates the column. */
  datatype LiftRow = LiftRow(
    date: int,
    name: Option<string>,
    setOrder: Option<int>,
    weight: Option<real>,
    reps: Option<real>,
    bodyMass: Option<real>,
    oneRepMax: Option<real>)

  // ---------------------------------------------------------------------
  // pd.merge(exercise_data, weight_data, on="date", how="left")
  // ---------------------------------------------------------------------

  function Joined(s: SetRow, bodyMass: Option<real>): LiftRow
  {
    LiftRow(s.date, s.name, s.setOrder, s.weight, s.reps, bodyMass, None)
  }

  /** The rows `s` produces against the weight rows dated like it. */
  function MatchesOn(s: SetRow, weight: seq<Weight.WeightDay>): seq<LiftRow>
  {
    if weight == [] then []
    else
      MatchesOn(s, weight[..|weight| - 1])
      + (if weight[|weight| - 1].date == s.date then [Joined(s, weight[|weight| - 1].bodyMass)] else [])
  }

  /** A left join keeps an unmatched set once, with a missing body mass. */
  function MergeOne(s: SetRow, weight: seq<Weight.WeightDay>): seq<LiftRow>
  {
    var m := MatchesOn(s, weight);
    if m == [] then [Joined(s, None)] else m
  }

  function MergeWeight(exercise: seq<SetRow>, weight: seq<Weight.WeightDay>): seq<LiftRow>
  {
    if exercise == [] then []
    else MergeWeight(exercise[..|exercise| - 1], weight) + MergeOne(exercise[|exercise| - 1], weight)
  }

  /** The body mass recorded for day `d`, missing when no row has that day. */
  function BodyMassOn(weight: seq<Weight.WeightDay>, d: int): Option<real>
  {
    if weight == [] then None
    else if weight[|weight| - 1].date == d then weight[|weight| - 1].bodyMass
    else BodyMassOn(weight[..|weight| - 1], d)
  }

  /** Weight rows with distinct dates match a set at most once. */
  lemma {:induction false} MatchesOnDistinct(s: SetRow, weight: seq<Weight.WeightDay>)
    requires Weight.DaysAscending(weight)
    ensures MatchesOn(s, weight) == [] || MatchesOn(s, weight) == [Joined(s, BodyMassOn(weight, s.date))]
    ensures MatchesOn(s, weight) == [] ==> BodyMassOn(weight, s.date) == None
  {
    if weight != [] {
      var init := weight[..|weight| - 1];
      var last := weight[|weight| - 1];
      assert Weight.DaysAscending(init);
      MatchesOnDistinct(s, init);
      if last.date == s.date {
        NoEarlierMatch(s, init, last.date);
      }
    }
  }

  lemma {:induction false} NoEarlierMatch(s: SetRow, weight: seq<Weight.WeightDay>, d: int)
    requires forall k :: 0 <= k < |weight| ==> weight[k].date < d
    ensures MatchesOn(s, weight) == [] || s.date != d
  {
    if weight != [] && s.date == d {
      NoEarlierMatch(s, weight[..|weight| - 1], d);
    }
  }

  /** Joined with a series holding one row per date (what
      `wrangle_weight_data` produces), the left join keeps every set once, in
      order, and attaches the body mass of its day. */
  lemma {:induction false} MergeWeightCorrect(exercise: seq<SetRow>, weight: seq<Weight.WeightDay>)
    requires Weight.DaysAscending(weight)
    ensures |MergeWeight(exercise, weight)| == |exercise|
    ensures forall i :: 0 <= i < |exercise| ==>
      MergeWeight(exercise, weight)[i] == Joined(exercise[i], BodyMassOn(weight, exercise[i].date))
  {
    if exercise != [] {
      var init := exercise[..|exercise| - 1];
      MergeWeightCorrect(init, weight);
      MatchesOnDistinct(exercise[|exercise| - 1], weight);
    }
  }

  // ---------------------------------------------------------------------
  // calculate_1RM
  // ---------------------------------------------------------------------

  /** Exercises performed with body weight, whose base is the body mass. */
  const UnweightedExercises: seq<string> := [
    "Chin Up", "Pull Up", "Wide Pull Up", "Back Extension", "Ab Coaster",
    "Battle Ropes", "Press Up", "Chest Dip", "Triceps Dip",
    "Curved Hack Squat", "Bulgarian Split Squat (Plate-Loaded)",
    "Knee Raise (Captain's Chair)", "Half-Hack Squat",
    "Goblet Squat (Kettlebell)", "Lunge (Dumbbell)"
  ]

  const BarbellTag: string := "(Barbell)"

  /** Added to the logged weight of a barbell lift. */
  const BarbellExtra: real := 44.0

  /** `fillna("Unknown")` on an exercise name. */
  function NameOrUnknown(n: Option<string>): string
  {
    if n.None? then "Unknown" else n.value
  }

  /** NaN-propagating `x + c`. */
  function Plus(x: Option<real>, c: real): Option<real>
  {
    if x.None? then None else Some(x.value + c)
  }

  /** The Epley estimate `base * (1 + reps / 30)`; NaN if either is NaN. */
  function Epley(base: Option<real>, reps: Option<real>): Option<real>
  {
    if base.None? || reps.None? then None
    else Some(base.value * (1.0 + reps.value / 30.0))
  }

  /** The base weight a set's one-rep maximum is estimated from. */
  function BaseWeight(name: string, weight: Option<real>, bodyMass: Option<real>): Option<real>
  {
    if name in UnweightedExercises then bodyMass
    else if Contains(name, BarbellTag) then Plus(weight, BarbellExtra)
    else weight
  }

  function OneRepMax(name: string, weight: Option<real>, reps: Option<real>, bodyMass: Option<real>): Option<real>
  {
    Epley(BaseWeight(name, weight, bodyMass), reps)
  }

  /** A row after the column initialisation and the name fill. */
  function Prepared(r: LiftRow): LiftRow
  {
    r.(name := Some(NameOrUnknown(r.name)), oneRepMax := Some(0.0))
  }

  /** A row as `calculate_1RM` leaves it. */
  function WithOneRepMax(r: LiftRow): LiftRow
  {
    var n := NameOrUnknown(r.name);
    r.(name := Some(n), oneRepMax := OneRepMax(n, r.weight, r.reps, r.bodyMass))
  }

  function Calculate1RMRows(rows: seq<LiftRow>): seq<LiftRow>
  {
    seq(|rows|, i requires 0 <= i < |rows| => WithOneRepMax(rows[i]))
  }

  /** The estimate grows with the number of repetitions for a positive base,
      equals the base for zero repetitions and is positive exactly when the
      base is (for a non-negative repetition count). */
  lemma {:induction false} EpleyProperties(base: real, reps: real, reps2: real)
    requires reps >= 0.0
    ensures Epley(Some(base), Some(0.0)) == Some(base)
    ensures Epley(Some(base), Some(reps)).value > 0.0 <==> base > 0.0
    ensures base > 0.0 && reps <= reps2 ==>
      Epley(Some(base), Some(reps)).value <= Epley(Some(base), Some(reps2)).value
  {
    var f := 1.0 + reps / 30.0;
    assert f >= 1.0;
    if base > 0.0 && reps <= reps2 {
      assert base * f <= base * (1.0 + reps2 / 30.0);
    }
    if base <= 0.0 {
      assert base * f <= 0.0;
    }
  }

  /** A barbell lift that is not a bodyweight exercise adds 44 to the
      logged weight; a bodyweight exercise ignores the logged weight. */
  lemma {:induction false} BaseWeightCases(name: string, weight: real, bodyMass: Option<real>)
    ensures name in UnweightedExercises ==> BaseWeight(name, Some(weight), bodyMass) == bodyMass
    ensures name !in UnweightedExercises && Contains(name, BarbellTag) ==>
      BaseWeight(name, Some(weight), bodyMass) == Some(weight + 44.0)
    ensures name !in UnweightedExercises && !Contains(name, BarbellTag) ==>
      BaseWeight(name, Some(weight), bodyMass) == Some(weight)
  {
  }

  /** `Series.unique()`: the distinct values in order of first appearance. */
  function Unique(xs: seq<string>): (u: seq<string>)
  {
    if xs == [] then []
    else
      var init := Unique(xs[..|xs| - 1]);
      if xs[|xs| - 1] in init then init else init + [xs[|xs| - 1]]
  }

  lemma {:induction false} UniqueCorrect(xs: seq<string>)
    ensures forall x :: x in Unique(xs) <==> x in xs
    ensures forall i, j :: 0 <= i < j < |Unique(xs)| ==> Unique(xs)[i] != Unique(xs)[j]
  {
    if xs != [] {
      UniqueCorrect(xs[..|xs| - 1]);
      assert xs == xs[..|xs| - 1] + [xs[|xs| - 1]];
    }
  }

  /** The names among `us` that contain "(Barbell)". */
  function Tagged(us: seq<string>): seq<string>
  {
    if us == [] then []
    else Tagged(us[..|us| - 1]) + (if Contains(us[|us| - 1], BarbellTag) then [us[|us| - 1]] else [])
  }

  lemma {:induction false} TaggedMembers(us: seq<string>, x: string)
    ensures x in Tagged(us) <==> x in us && Contains(x, BarbellTag)
  {
    if us != [] {
      TaggedMembers(us[..|us| - 1], x);
      assert us == us[..|us| - 1] + [us[|us| - 1]];
    }
  }

  /** The list comprehension over the unique names. */
  function BarbellExercises(names: seq<string>): seq<string>
  {
    Tagged(Unique(names))
  }

  /** An occurring name is in the barbell list exactly when it contains
      "(Barbell)". */
  lemma {:induction false} BarbellExercisesIff(names: seq<string>, x: string)
    requires x in names
    ensures x in BarbellExercises(names) <==> Contains(x, BarbellTag)
  {
    UniqueCorrect(names);
    TaggedMembers(Unique(names), x);
  }

  function Names(rows: seq<LiftRow>): seq<string>
  {
    seq(|rows|, i requires 0 <= i < |rows| => NameOrUnknown(rows[i].name))
  }

  /** `calculate_1RM`: one vectorised initialisation, then a row-by-row
      walk that writes each set's one-rep maximum.  The closing per-group
      `cummax`/`update` loop writes no existing column and so changes
      nothing. */
  method Calculate1RM(data: array<LiftRow>)
    modifies data
    ensures data[..] == Calculate1RMRows(old(data[..]))
  {
    ghost var orig := data[..];
    forall i | 0 <= i < data.Length {
      data[i] := Prepared(data[i]);
    }
    assert data[..] == Calculate1RMPrepared(orig);
    var barbell := BarbellExercises(Names(data[..]));
    var i := 0;
    while i < data.Length
      invariant 0 <= i <= data.Length
      invariant forall j :: 0 <= j < i ==> data[j] == WithOneRepMax(orig[j])
      invariant forall j :: i <= j < data.Length ==> data[j] == Prepared(orig[j])
      invariant barbell == BarbellExercises(Names(Calculate1RMPrepared(orig)))
    {
      var row := data[i];
      var name := row.name.value;
      assert Names(Calculate1RMPrepared(orig))[i] == name;
      BarbellExercisesIff(Names(Calculate1RMPrepared(orig)), name);
      var weight := row.weight;
      if name in barbell {
        weight := Plus(weight, BarbellExtra);
      }
      var oneRepMax;
      if name in UnweightedExercises {
        oneRepMax := Epley(row.bodyMass, row.reps);
      } else {
        oneRepMax := Epley(weight, row.reps);
      }
      data[i] := row.(oneRepMax := oneRepMax);
      i := i + 1;
    }
  }

  function Calculate1RMPrepared(rows: seq<LiftRow>): seq<LiftRow>
  {
    seq(|rows|, i requires 0 <= i < |rows| => Prepared(rows[i]))
  }

  // ---------------------------------------------------------------------
  // calculate_derivative_metrics
  // ---------------------------------------------------------------------

  /** A set row with the two columns the merge adds. */
  datatype MetricRow = MetricRow(row: LiftRow, cummax: Option<real>, rolling: Option<real>)

  /** Length in days of the `rolling(window="90D")` window, which holds the
      dates `d - 89 .. d`. */
  const RollingDays: int := 90

  /** `r` belongs to exercise `n` and is dated in `[lo, hi]`; a missing `lo`
      leaves the window open to the past. */
  predicate InWindow(r: LiftRow, n: string, lo: Option<int>, hi: int)
  {
    r.name == Some(n) && r.date <= hi && (lo.None? || lo.value <= r.date)
  }

  /** The one-rep maxima of the rows of exercise `n` in a date window. */
  function OrmsIn(data: seq<LiftRow>, n: string, lo: Option<int>, hi: int): seq<Option<real>>
  {
    if data == [] then []
    else
      OrmsIn(data[..|data| - 1], n, lo, hi)
      + (if InWindow(data[|data| - 1], n, lo, hi) then [data[|data| - 1].oneRepMax] else [])
  }

  lemma {:induction false} OrmsInHas(data: seq<LiftRow>, n: string, lo: Option<int>, hi: int, r: LiftRow)
    requires r in data && InWindow(r, n, lo, hi)
    ensures r.oneRepMax in OrmsIn(data, n, lo, hi)
  {
    var init := data[..|data| - 1];
    if r != data[|data| - 1] {
      assert data == init + [data[|data| - 1]];
      OrmsInHas(init, n, lo, hi, r);
    }
  }

  /** Every cell taken from a window comes from a row of that window. */
  lemma {:induction false} OrmsInWithin(data: seq<LiftRow>, n: string, lo: Option<int>, hi: int,
                                        lo2: Option<int>, hi2: int)
    requires hi <= hi2 && (lo2.None? || (lo.Some? && lo2.value <= lo.value))
    ensures forall i :: 0 <= i < |OrmsIn(data, n, lo, hi)| ==>
      OrmsIn(data, n, lo, hi)[i] in OrmsIn(data, n, lo2, hi2)
  {
    if data != [] {
      var init := data[..|data| - 1];
      OrmsInWithin(init, n, lo, hi, lo2, hi2);
    }
  }

  /** A narrower window has no larger maximum. */
  lemma {:induction false} MaxWithin(data: seq<LiftRow>, n: string, lo: Option<int>, hi: int, lo2: Option<int>, hi2: int)
    requires hi <= hi2 && (lo2.None? || (lo.Some? && lo2.value <= lo.value))
    ensures MaxOf(OrmsIn(data, n, lo, hi)).Some? ==>
      && MaxOf(OrmsIn(data, n, lo2, hi2)).Some?
      && MaxOf(OrmsIn(data, n, lo, hi)).value <= MaxOf(OrmsIn(data, n, lo2, hi2)).value
  {
    OrmsInWithin(data, n, lo, hi, lo2, hi2);
    MaxOfMono(OrmsIn(data, n, lo, hi), OrmsIn(data, n, lo2, hi2));
  }

  /** `groupby(["exercise_name", "date"])["one_rep_max"].max()`. */
  function DayMax(data: seq<LiftRow>, n: string, d: int): Option<real>
  {
    MaxOf(OrmsIn(data, n, Some(d), d))
  }

  /** The group `cummax()` over the daily maxima: missing where the day's
      maximum is missing, otherwise the largest value up to that day. */
  function RunningMax(data: seq<LiftRow>, n: string, d: int): Option<real>
  {
    if DayMax(data, n, d).None? then None else MaxOf(OrmsIn(data, n, None, d))
  }

  /** The group `rolling(window="90D").max()` over the daily maxima. */
  function RollingMax(data: seq<LiftRow>, n: string, d: int): Option<real>
  {
    MaxOf(OrmsIn(data, n, Some(d - RollingDays + 1), d))
  }

  /** The left merge with the daily table on (exercise, date); a row with a
      missing name matches no group. */
  function WithMetrics(data: seq<LiftRow>, r: LiftRow): MetricRow
  {
    match r.name
    case None => MetricRow(r, None, None)
    case Some(n) => MetricRow(r, RunningMax(data, n, r.date), RollingMax(data, n, r.date))
  }

  /** pandas orders missing names after every present one. */
  predicate NameLess(x: Option<string>, y: Option<string>)
  {
    x.Some? && (y.None? || StrLess(x.value, y.value))
  }

  predicate NameLe(x: Option<string>, y: Option<string>)
  {
    x == y || NameLess(x, y)
  }

  lemma {:induction false} NameLessOrder(x: Option<string>, y: Option<string>, z: Option<string>)
    ensures !NameLess(x, x)
    ensures NameLess(x, y) && NameLess(y, z) ==> NameLess(x, z)
    ensures NameLess(x, y) || x == y || NameLess(y, x)
  {
    if x.Some? {
      StrLessIrreflexive(x.value);
      if y.Some? {
        StrLessTrichotomy(x.value, y.value);
        if z.Some? && StrLess(x.value, y.value) && StrLess(y.value, z.value) {
          StrLessTransitive(x.value, y.value, z.value);
        }
      }
    }
  }

  /** The key of `sort_values(by=["exercise_name", "date"])`. */
  predicate NameDateLe(a: LiftRow, b: LiftRow)
  {
    NameLess(a.name, b.name) || (a.name == b.name && a.date <= b.date)
  }

  /** The key of `sort_values(by=["date", "exercise_name"])`. */
  predicate DateNameLe(a: MetricRow, b: MetricRow)
  {
    a.row.date < b.row.date || (a.row.date == b.row.date && NameLe(a.row.name, b.row.name))
  }

  lemma {:induction false} NameDateLeTotal()
    ensures TotalPreorder(NameDateLe)
  {
    forall a: LiftRow, b: LiftRow ensures NameDateLe(a, b) || NameDateLe(b, a) {
      NameLessOrder(a.name, b.name, b.name);
    }
    forall a: LiftRow, b: LiftRow, c: LiftRow | NameDateLe(a, b) && NameDateLe(b, c)
      ensures NameDateLe(a, c)
    {
      NameLessOrder(a.name, b.name, c.name);
    }
  }

  lemma {:induction false} DateNameLeTotal()
    ensures TotalPreorder(DateNameLe)
  {
    forall a: MetricRow, b: MetricRow ensures DateNameLe(a, b) || DateNameLe(b, a) {
      NameLessOrder(a.row.name, b.row.name, b.row.name);
    }
    forall a: MetricRow, b: MetricRow, c: MetricRow | DateNameLe(a, b) && DateNameLe(b, c)
      ensures DateNameLe(a, c)
    {
      NameLessOrder(a.row.name, b.row.name, c.row.name);
    }
  }

  /** The merge of the sorted rows with their group metrics. */
  function MergeMetrics(data: seq<LiftRow>, sorted: seq<LiftRow>): (m: seq<MetricRow>)
    ensures |m| == |sorted|
  {
    seq(|sorted|, i requires 0 <= i < |sorted| => WithMetrics(data, sorted[i]))
  }

  lemma {:induction false} MergeMetricsAppend(data: seq<LiftRow>, xs: seq<LiftRow>, ys: seq<LiftRow>)
    ensures MergeMetrics(data, xs + ys) == MergeMetrics(data, xs) + MergeMetrics(data, ys)
  {
    var l, r := MergeMetrics(data, xs + ys), MergeMetrics(data, xs) + MergeMetrics(data, ys);
    forall k | 0 <= k < |l| ensures l[k] == r[k] {
      if k < |xs| {
        assert (xs + ys)[k] == xs[k];
      } else {
        assert (xs + ys)[k] == ys[k - |xs|];
      }
    }
  }

  lemma {:induction false} RemoveOne<T>(xs: seq<T>, ys: seq<T>, i: nat)
    requires multiset(xs) == multiset(ys) && xs != [] && i < |ys| && ys[i] == xs[0]
    ensures multiset(xs[1..]) == multiset(ys[..i] + ys[i + 1..])
  {
    assert xs == [xs[0]] + xs[1..];
    assert ys == ys[..i] + [ys[i]] + ys[i + 1..];
    calc {
      multiset(xs[1..]);
      multiset(xs) - multiset{xs[0]};
      multiset(ys[..i]) + multiset{ys[i]} + multiset(ys[i + 1..]) - multiset{xs[0]};
      multiset(ys[..i] + ys[i + 1..]);
    }
  }

  /** Attaching metrics row by row commutes with reordering the rows. */
  lemma {:induction false} MergeMetricsPermutation(data: seq<LiftRow>, xs: seq<LiftRow>, ys: seq<LiftRow>)
    requires multiset(xs) == multiset(ys)
    ensures multiset(MergeMetrics(data, xs)) == multiset(MergeMetrics(data, ys))
    decreases |xs|
  {
    if xs != [] {
      var x := xs[0];
      assert x in multiset(ys);
      var i :| 0 <= i < |ys| && ys[i] == x;
      var pre, post := ys[..i], ys[i + 1..];
      RemoveOne(xs, ys, i);
      MergeMetricsPermutation(data, xs[1..], pre + post);
      assert xs == [x] + xs[1..];
      MergeMetricsAppend(data, [x], xs[1..]);
      assert ys == pre + ([x] + post);
      MergeMetricsAppend(data, pre, [x] + post);
      MergeMetricsAppend(data, [x], post);
      MergeMetricsAppend(data, pre, post);
    }
  }

  /** `calculate_derivative_metrics`: sort by (exercise, date), attach the
      group metrics, sort by (date, exercise).  The group maxima of the
      daily table do not depend on row order, so they are taken over `data`. */
  function CalculateDerivativeMetrics(data: seq<LiftRow>): seq<MetricRow>
  {
    SortBy(MergeMetrics(data, SortBy(data, NameDateLe)), DateNameLe)
  }

  /** `m` is the merge result for some input row. */
  ghost predicate FromInput(data: seq<LiftRow>, m: MetricRow)
  {
    exists r :: r in data && m == WithMetrics(data, r)
  }

  /** The merge keeps every row exactly as often as it occurs, each with
      its own metrics, and the output is in (date, exercise) order. */
  lemma {:induction false} CalculateDerivativeMetricsCorrect(data: seq<LiftRow>)
    ensures |CalculateDerivativeMetrics(data)| == |data|
    ensures SortedBy(CalculateDerivativeMetrics(data), DateNameLe)
    ensures forall k :: 0 <= k < |data| ==> FromInput(data, CalculateDerivativeMetrics(data)[k])
    ensures forall r :: r in data ==> WithMetrics(data, r) in CalculateDerivativeMetrics(data)
    ensures multiset(CalculateDerivativeMetrics(data)) == multiset(MergeMetrics(data, data))
  {
    NameDateLeTotal();
    DateNameLeTotal();
    var byName := SortBy(data, NameDateLe);
    SortByCorrect(data, NameDateLe);
    var merged := MergeMetrics(data, byName);
    SortByCorrect(merged, DateNameLe);
    var out := SortBy(merged, DateNameLe);
    MergeMetricsPermutation(data, byName, data);
    forall k | 0 <= k < |data| ensures FromInput(data, out[k]) {
      assert out[k] in multiset(merged);
      var i :| 0 <= i < |merged| && merged[i] == out[k];
      assert byName[i] in multiset(data);
    }
    forall r | r in data ensures WithMetrics(data, r) in out {
      assert r in multiset(byName);
      var i :| 0 <= i < |byName| && byName[i] == r;
      assert merged[i] in multiset(out);
    }
  }

  /** A set's own one-rep maximum is at most its day's maximum. */
  lemma {:induction false} RowBelowDayMax(data: seq<LiftRow>, r: LiftRow)
    requires r in data && r.name.Some? && r.oneRepMax.Some?
    ensures DayMax(data, r.name.value, r.date).Some?
    ensures r.oneRepMax.value <= DayMax(data, r.name.value, r.date).value
  {
    var vs := OrmsIn(data, r.name.value, Some(r.date), r.date);
    OrmsInHas(data, r.name.value, Some(r.date), r.date, r);
    MaxOfIsGreatest(vs);
    var i :| 0 <= i < |vs| && vs[i] == r.oneRepMax;
  }

  /** On a day with a maximum, the running maximum is at least the rolling
      maximum, which is at least the day's maximum. */
  lemma {:induction false} MetricBounds(data: seq<LiftRow>, n: string, d: int)
    requires DayMax(data, n, d).Some?
    ensures RunningMax(data, n, d).Some? && RollingMax(data, n, d).Some?
    ensures DayMax(data, n, d).value <= RollingMax(data, n, d).value <= RunningMax(data, n, d).value
  {
    MaxWithin(data, n, Some(d), d, Some(d - RollingDays + 1), d);
    MaxWithin(data, n, Some(d - RollingDays + 1), d, None, d);
  }

  /** Per exercise, the running maximum does not decrease with the date. */
  lemma {:induction false} RunningMaxMonotone(data: seq<LiftRow>, n: string, d1: int, d2: int)
    requires d1 <= d2 && RunningMax(data, n, d1).Some? && RunningMax(data, n, d2).Some?
    ensures RunningMax(data, n, d1).value <= RunningMax(data, n, d2).value
  {
    MaxWithin(data, n, None, d1, None, d2);
  }

  /** The output rows of one exercise, read in date order, carry a
      non-decreasing `cummax_one_rep_max`. */
  lemma {:induction false} CummaxNonDecreasing(data: seq<LiftRow>, out: seq<MetricRow>, i: nat, j: nat)
    requires out == CalculateDerivativeMetrics(data)
    requires i < |out| && j < |out|
    requires out[i].row.name.Some? && out[i].row.name == out[j].row.name
    requires out[i].row.date <= out[j].row.date
    requires out[i].cummax.Some? && out[j].cummax.Some?
    ensures out[i].cummax.value <= out[j].cummax.value
  {
    CalculateDerivativeMetricsCorrect(data);
    assert FromInput(data, out[i]) && FromInput(data, out[j]);
    var ri :| ri in data && out[i] == WithMetrics(data, ri);
    var rj :| rj in data && out[j] == WithMetrics(data, rj);
    RunningMaxMonotone(data, ri.name.value, ri.date, rj.date);
  }

  /** Every output row with a one-rep maximum has both metrics, ordered as
      own value <= day maximum <= rolling maximum <= running maximum. */
  lemma {:induction false} MetricRowBounds(data: seq<LiftRow>, out: seq<MetricRow>, k: nat)
    requires out == CalculateDerivativeMetrics(data)
    requires k < |out| && out[k].row.name.Some? && out[k].row.oneRepMax.Some?
    ensures out[k].cummax.Some? && out[k].rolling.Some?
    ensures DayMax(data, out[k].row.name.value, out[k].row.date).Some?
    ensures out[k].row.oneRepMax.value <= DayMax(data, out[k].row.name.value, out[k].row.date).value
    ensures DayMax(data, out[k].row.name.value, out[k].row.date).value <= out[k].rolling.value
    ensures out[k].rolling.value <= out[k].cummax.value
  {
    CalculateDerivativeMetricsCorrect(data);
    assert FromInput(data, out[k]);
    var r :| r in data && out[k] == WithMetrics(data, r);
    RowBelowDayMax(data, r);
    MetricBounds(data, r.name.value, r.date);
  }

  // ---------------------------------------------------------------------
  // filter_exercise_data
  // ---------------------------------------------------------------------

  /** A row of the final table: `set_order`, `weight` and `body_mass` are
      gone and the one-rep maximum is known to be a number. */
  datatype LiftResult = LiftResult(
    date: int,
    name: string,
    reps: Option<real>,
    oneRepMax: real,
    cummax: Option<real>,
    rolling: Option<real>)

  /** `notna()` on the name and `one_rep_max > 0` (false for NaN). */
  predicate Survives(m: MetricRow)
  {
    m.row.name.Some? && m.row.oneRepMax.Some? && m.row.oneRepMax.value > 0.0
  }

  function Project(m: MetricRow): LiftResult
    requires Survives(m)
  {
    LiftResult(m.row.date, m.row.name.value, m.row.reps, m.row.oneRepMax.value, m.cummax, m.rolling)
  }

  function FilterExerciseData(rows: seq<MetricRow>): (r: seq<LiftResult>)
    ensures |r| <= |rows|
    ensures forall k :: 0 <= k < |r| ==> r[k].oneRepMax > 0.0
  {
    if rows == [] then []
    else
      var last := rows[|rows| - 1];
      FilterExerciseData(rows[..|rows| - 1]) + (if Survives(last) then [Project(last)] else [])
  }

  /** Filtering distributes over concatenation, so surviving rows keep their
      relative order. */
  lemma {:induction false} FilterAppend(a: seq<MetricRow>, b: seq<MetricRow>)
    ensures FilterExerciseData(a + b) == FilterExerciseData(a) + FilterExerciseData(b)
  {
    if b != [] {
      FilterAppend(a, b[..|b| - 1]);
      assert (a + b)[..|a + b| - 1] == a + b[..|b| - 1];
    } else {
      assert a + b == a;
    }
  }

  /** A surviving row appears, projected, and every output row is the
      projection of a surviving row. */
  lemma {:induction false} FilterMembers(rows: seq<MetricRow>, m: MetricRow)
    ensures m in rows && Survives(m) ==> Project(m) in FilterExerciseData(rows)
  {
    if rows != [] {
      FilterMembers(rows[..|rows| - 1], m);
      assert rows == rows[..|rows| - 1] + [rows[|rows| - 1]];
    }
  }

  lemma {:induction false} FilterFrom(rows: seq<MetricRow>, x: LiftResult)
    requires x in FilterExerciseData(rows)
    ensures exists m :: m in rows && Survives(m) && Project(m) == x
  {
    var init := rows[..|rows| - 1];
    var last := rows[|rows| - 1];
    if x in FilterExerciseData(init) {
      FilterFrom(init, x);
      var m :| m in init && Survives(m) && Project(m) == x;
      assert m in rows;
    } else {
      assert Survives(last) && Project(last) == x;
    }
  }

  /** The key of `sort_values(by="date")`. */
  predicate DateLe(a: MetricRow, b: MetricRow)
  {
    a.row.date <= b.row.date
  }

  predicate ResultDateLe(a: LiftResult, b: LiftResult)
  {
    a.date <= b.date
  }

  /** Filtering rows in date order leaves them in date order. */
  lemma {:induction false} FilterSorted(rows: seq<MetricRow>)
    requires SortedBy(rows, DateLe)
    ensures SortedBy(FilterExerciseData(rows), ResultDateLe)
  {
    if rows != [] {
      var init := rows[..|rows| - 1];
      var last := rows[|rows| - 1];
      assert SortedBy(init, DateLe);
      FilterSorted(init);
      var f := FilterExerciseData(init);
      if Survives(last) {
        forall k | 0 <= k < |f| ensures f[k].date <= last.row.date {
          FilterFrom(init, f[k]);
          var m :| m in init && Survives(m) && Project(m) == f[k];
          var i :| 0 <= i < |init| && init[i] == m;
          assert rows[i] == m;
        }
        var r := FilterExerciseData(rows);
        assert r == f + [Project(last)];
        forall a, b | 0 <= a < b < |r| ensures ResultDateLe(r[a], r[b]) {
          if b < |f| {
            assert r[a] == f[a] && r[b] == f[b];
          }
        }
      }
    }
  }

  // ---------------------------------------------------------------------
  // wrangle_weightlifting_data
  // ---------------------------------------------------------------------

  /** Output sorted on (date, exercise) is sorted on the date alone, so the
      final `sort_values(by="date")` of a stable sort changes nothing. */
  lemma {:induction false} DateSortKeepsOrder(rows: seq<MetricRow>)
    requires SortedBy(rows, DateNameLe)
    ensures SortedBy(rows, DateLe)
    ensures SortBy(rows, DateLe) == rows
  {
    SortBySortedIsIdentity(rows, DateLe);
  }

  /** The specification of the whole weightlifting step on values. */
  function WeightliftingRows(exercise: seq<SetRow>, weight: seq<Weight.WeightDay>): seq<LiftResult>
  {
    FilterExerciseData(SortBy(CalculateDerivativeMetrics(Calculate1RMRows(MergeWeight(exercise, weight))), DateLe))
  }

  /** `wrangle_weightlifting_data`: join, estimate one-rep maxima in place,
      attach the group metrics, sort by date and filter.  The result is in
      date order and every row has a positive one-rep maximum. */
  method WrangleWeightliftingData(exercise: seq<SetRow>, weight: seq<Weight.WeightDay>)
    returns (result: seq<LiftResult>)
    ensures result == WeightliftingRows(exercise, weight)
    ensures SortedBy(result, ResultDateLe)
    ensures forall k :: 0 <= k < |result| ==> result[k].oneRepMax > 0.0
  {
    var merged := MergeWeight(exercise, weight);
    var data := new LiftRow[|merged|](i requires 0 <= i < |merged| => merged[i]);
    assert data[..] == merged;
    Calculate1RM(data);
    var metrics := CalculateDerivativeMetrics(data[..]);
    CalculateDerivativeMetricsCorrect(data[..]);
    DateSortKeepsOrder(metrics);
    var sorted := SortBy(metrics, DateLe);
    FilterSorted(sorted);
    result := FilterExerciseData(sorted);
  }
}
