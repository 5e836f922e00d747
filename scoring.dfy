/** `MentalHealthDataProcessor.calculate_score`: a weighted score over a
    set of questionnaire factors, row by row, with a validity cutoff on the
    share of answered factors, rejection of "uniform" rows, NaN counted as
    zero, and an optional linear rescale onto [-100, 100].

    Factor columns are NaN-able reals; dates are day numbers.  The
    transformations of `vars_info` are passed in as functions. */
module Scoring {
  import opened Common

  /** One entry `name: (min_val, max_val, weight, transformation)` of
      `vars_info`; the sequence order is the dictionary's insertion order. */
  datatype Factor = Factor(name: string, minVal: real, maxVal: real, weight: real, transform: real -> real)

  /** A float64 result: NaN, a finite value or an infinity. */
  datatype Float = NaN | Finite(x: real) | PosInf | NegInf

  /** The variables whose "uniform" value is 0; every other factor's is 1. */
  const MainVars: set<string> := {"elevated", "depressed", "anxiety"}

  /** `data[[var for var in vars_info]]`: the factor columns in factor order;
      KeyError names the first factor without a column. */
  function FactorColumns(cols: map<string, seq<Option<real>>>, factors: seq<Factor>): (r: Result<seq<seq<Option<real>>>>)
    ensures r.Ok? ==> |r.value| == |factors|
    ensures r.Ok? ==> forall i :: 0 <= i < |factors| ==> factors[i].name in cols && r.value[i] == cols[factors[i].name]
    ensures r.Err? ==> exists i :: 0 <= i < |factors| && factors[i].name !in cols && r.error == KeyError(factors[i].name)
                                && forall j :: 0 <= j < i ==> factors[j].name in cols
  {
    if factors == [] then Ok([])
    else if factors[0].name !in cols then Err(KeyError(factors[0].name))
    else
      match FactorColumns(cols, factors[1..])
      case Err(e) => Err(e)
      case Ok(rest) => Ok([cols[factors[0].name]] + rest)
  }

  /** Factor columns with one cell per row. */
  predicate Rectangular(vals: seq<seq<Option<real>>>, n: nat)
  {
    forall i :: 0 <= i < |vals| ==> |vals[i]| == n
  }

  /** The number of answered factors among the first `i` in row `k`. */
  function Available(vals: seq<seq<Option<real>>>, n: nat, k: nat, i: nat): (r: nat)
    requires Rectangular(vals, n) && k < n && i <= |vals|
    ensures r <= i
  {
    if i == 0 then 0 else Available(vals, n, k, i - 1) + (if vals[i - 1][k].Some? then 1 else 0)
  }

  /** `main_zero_check & custom_one_check`: every main factor equals 0 and
      every other factor equals 1 (NaN equals neither). */
  predicate Uniform(factors: seq<Factor>, vals: seq<seq<Option<real>>>, k: nat)
    requires |vals| == |factors| && forall i :: 0 <= i < |vals| ==> k < |vals[i]|
  {
    forall i :: 0 <= i < |factors| ==>
      vals[i][k] == Some(if factors[i].name in MainVars then 0.0 else 1.0)
  }

  /** The validity mask the score is masked with. */
  predicate ValidRow(factors: seq<Factor>, vals: seq<seq<Option<real>>>, n: nat, cutoff: real, k: nat)
    requires |vals| == |factors| && Rectangular(vals, n) && k < n
  {
    && |factors| > 0
    && (Available(vals, n, k, |factors|) as real) / (|factors| as real) >= cutoff
    && !Uniform(factors, vals, k)
  }

  /** `transformation(x) * weight`, with NaN filled by 0. */
  function Contribution(f: Factor, v: Option<real>): real
  {
    if v.Some? then f.transform(v.value) * f.weight else 0.0
  }

  /** `score_sum` over the first `i` factors of row `k`. */
  function ScoreSum(factors: seq<Factor>, vals: seq<seq<Option<real>>>, n: nat, k: nat, i: nat): real
    requires |vals| == |factors| && Rectangular(vals, n) && k < n && i <= |factors|
  {
    if i == 0 then 0.0 else ScoreSum(factors, vals, n, k, i - 1) + Contribution(factors[i - 1], vals[i - 1][k])
  }

  /** A factor's share of the least possible score. */
  function MinTerm(f: Factor): real
  {
    if f.weight > 0.0 then f.transform(f.minVal) * f.weight else f.transform(f.maxVal) * f.weight
  }

  /** A factor's share of the greatest possible score. */
  function MaxTerm(f: Factor): real
  {
    if f.weight > 0.0 then f.transform(f.maxVal) * f.weight else f.transform(f.minVal) * f.weight
  }

  function MinPossible(factors: seq<Factor>): real
  {
    if factors == [] then 0.0 else MinPossible(factors[..|factors| - 1]) + MinTerm(factors[|factors| - 1])
  }

  function MaxPossible(factors: seq<Factor>): real
  {
    if factors == [] then 0.0 else MaxPossible(factors[..|factors| - 1]) + MaxTerm(factors[|factors| - 1])
  }

  /** `(score_sum - lo) / (hi - lo) * 200 - 100` in float64: dividing by a
      zero span gives an infinity, or NaN for 0 / 0. */
  function Rescale(s: real, lo: real, hi: real): Float
  {
    if hi != lo then Finite((s - lo) / (hi - lo) * 200.0 - 100.0)
    else if s > lo then PosInf
    else if s < lo then NegInf
    else NaN
  }

  /** The score of row `k`: NaN where the row is invalid. */
  function ScoreAt(factors: seq<Factor>, vals: seq<seq<Option<real>>>, n: nat, cutoff: real, rescale: bool, k: nat): Float
    requires |vals| == |factors| && Rectangular(vals, n) && k < n
  {
    if !ValidRow(factors, vals, n, cutoff, k) then NaN
    else
      var s := ScoreSum(factors, vals, n, k, |factors|);
      if rescale then Rescale(s, MinPossible(factors), MaxPossible(factors)) else Finite(s)
  }

  /** The scores `calculate_score` returns, as written: the date
      exclusions play no part. */
  function ScoreSpec(n: nat, cols: map<string, seq<Option<real>>>, factors: seq<Factor>, cutoff: real, rescale: bool): Result<seq<Float>>
    requires forall c :: c in cols ==> |cols[c]| == n
  {
    match FactorColumns(cols, factors)
    case Err(e) => Err(e)
    case Ok(vals) =>
      Ok(seq(n, k requires 0 <= k < n => ScoreAt(factors, vals, n, cutoff, rescale, k)))
  }

  /** `data["date"].between(start, end)`. */
  predicate Between(d: int, range: (int, int))
  {
    range.0 <= d <= range.1
  }

  /** The rows outside every excluded date range. */
  function OutsideExclusions(dates: seq<int>, excludeDates: seq<(int, int)>, k: nat): bool
    requires k < |dates|
  {
    forall e :: 0 <= e < |excludeDates| ==> !Between(dates[k], excludeDates[e])
  }

  /** The exclusion mask of `calculate_score`: a row stays valid when its
      date lies outside every excluded range. */
  method ExclusionMask(dates: seq<int>, excludeDates: seq<(int, int)>) returns (valid: seq<bool>)
    ensures |valid| == |dates|
    ensures forall k :: 0 <= k < |dates| ==> (valid[k] <==> OutsideExclusions(dates, excludeDates, k))
  {
    var n := |dates|;
    valid := seq(n, k => true);
    for e := 0 to |excludeDates|
      invariant |valid| == n
      invariant forall k :: 0 <= k < n ==>
        (valid[k] <==> forall f :: 0 <= f < e ==> !Between(dates[k], excludeDates[f]))
    {
      valid := seq(n, k requires 0 <= k < n => valid[k] && !Between(dates[k], excludeDates[e]));
    }
  }

  /** The factor sums of every row, accumulated column by column. */
  method FactorSums(factors: seq<Factor>, vals: seq<seq<Option<real>>>, n: nat) returns (s: seq<real>)
    requires |vals| == |factors| && Rectangular(vals, n)
    ensures |s| == n
    ensures forall k :: 0 <= k < n ==> s[k] == ScoreSum(factors, vals, n, k, |factors|)
  {
    var sums := new real[n](k => 0.0);
    for i := 0 to |factors|
      invariant forall k :: 0 <= k < n ==> sums[k] == ScoreSum(factors, vals, n, k, i)
    {
      for k := 0 to n
        invariant forall j :: 0 <= j < k ==> sums[j] == ScoreSum(factors, vals, n, j, i + 1)
        invariant forall j :: k <= j < n ==> sums[j] == ScoreSum(factors, vals, n, j, i)
      {
        sums[k] := sums[k] + Contribution(factors[i], vals[i][k]);
      }
    }
    s := sums[..];
  }

  /** The smallest and largest possible sums, added up factor by factor. */
  method PossibleExtremes(factors: seq<Factor>) returns (lo: real, hi: real)
    ensures lo == MinPossible(factors) && hi == MaxPossible(factors)
  {
    lo, hi := 0.0, 0.0;
    for i := 0 to |factors|
      invariant lo == MinPossible(factors[..i]) && hi == MaxPossible(factors[..i])
    {
      assert factors[..i + 1][..i] == factors[..i];
      lo, hi := lo + MinTerm(factors[i]), hi + MaxTerm(factors[i]);
    }
    assert factors[..|factors|] == factors;
  }

  /** `calculate_score`: the exclusion mask is built and then replaced by
      the cutoff-and-uniformity mask; the transformed factors are summed
      column by column; the possible extremes are summed factor by factor. */
  method CalculateScore(dates: seq<int>, cols: map<string, seq<Option<real>>>, factors: seq<Factor>,
                        cutoff: real, excludeDates: seq<(int, int)>, rescale: bool)
    returns (r: Result<seq<Float>>)
    requires forall c :: c in cols ==> |cols[c]| == |dates|
    ensures r == ScoreSpec(|dates|, cols, factors, cutoff, rescale)
  {
    var n := |dates|;
    var valid := ExclusionMask(dates, excludeDates);
    var looked := FactorColumns(cols, factors);
    if looked.Err? {
      return Err(looked.error);
    }
    var vals := looked.value;
    valid := seq(n, k requires 0 <= k < n => ValidRow(factors, vals, n, cutoff, k));
    var s := FactorSums(factors, vals, n);
    var lo, hi := PossibleExtremes(factors);
    var scores := seq(n, k requires 0 <= k < n =>
      if !valid[k] then NaN else if rescale then Rescale(s[k], lo, hi) else Finite(s[k]));
    assert forall k :: 0 <= k < n ==> scores[k] == ScoreAt(factors, vals, n, cutoff, rescale, k);
    assert scores == seq(n, k requires 0 <= k < n => ScoreAt(factors, vals, n, cutoff, rescale, k));
    r := Ok(scores);
  }

  // ---------------------------------------------------------------------
  // Properties
  // ---------------------------------------------------------------------

  /** A row scores NaN when it is invalid; a valid row gets a finite score
      unless the rescale divides by a zero span. */
  lemma {:induction false} ScoreNaNIff(factors: seq<Factor>, vals: seq<seq<Option<real>>>, n: nat, cutoff: real, rescale: bool, k: nat)
    requires |vals| == |factors| && Rectangular(vals, n) && k < n
    ensures !ValidRow(factors, vals, n, cutoff, k) ==> ScoreAt(factors, vals, n, cutoff, rescale, k) == NaN
    ensures ValidRow(factors, vals, n, cutoff, k) && (!rescale || MinPossible(factors) != MaxPossible(factors)) ==>
      ScoreAt(factors, vals, n, cutoff, rescale, k).Finite?
    ensures ValidRow(factors, vals, n, cutoff, k) && !rescale ==>
      ScoreAt(factors, vals, n, cutoff, rescale, k) == Finite(ScoreSum(factors, vals, n, k, |factors|))
  {
  }

  /** A row in which every main factor is 0 and every other factor is 1 is
      rejected, whatever the cutoff. */
  lemma {:induction false} UniformRowIsNaN(factors: seq<Factor>, vals: seq<seq<Option<real>>>, n: nat, cutoff: real, rescale: bool, k: nat)
    requires |vals| == |factors| && Rectangular(vals, n) && k < n
    requires forall i :: 0 <= i < |factors| && factors[i].name in MainVars ==> vals[i][k] == Some(0.0)
    requires forall i :: 0 <= i < |factors| && factors[i].name !in MainVars ==> vals[i][k] == Some(1.0)
    ensures ScoreAt(factors, vals, n, cutoff, rescale, k) == NaN
  {
    assert Uniform(factors, vals, k);
  }

  /** A row counts every answered factor: all answered means the share is 1,
      so a fully answered non-uniform row passes any cutoff up to 1. */
  lemma {:induction false} AvailableAll(vals: seq<seq<Option<real>>>, n: nat, k: nat, i: nat)
    requires Rectangular(vals, n) && k < n && i <= |vals|
    requires forall j :: 0 <= j < i ==> vals[j][k].Some?
    ensures Available(vals, n, k, i) == i
  {
    if i > 0 {
      AvailableAll(vals, n, k, i - 1);
    }
  }

  lemma {:induction false} FullRowValid(factors: seq<Factor>, vals: seq<seq<Option<real>>>, n: nat, cutoff: real, k: nat)
    requires |vals| == |factors| > 0 && Rectangular(vals, n) && k < n
    requires forall j :: 0 <= j < |factors| ==> vals[j][k].Some?
    requires cutoff <= 1.0 && !Uniform(factors, vals, k)
    ensures ValidRow(factors, vals, n, cutoff, k)
  {
    AvailableAll(vals, n, k, |factors|);
  }

  /** A missing answer adds nothing: the sum is the sum over the answered
      factors alone. */
  lemma {:induction false} MissingAddsNothing(factors: seq<Factor>, vals: seq<seq<Option<real>>>, n: nat, k: nat, i: nat)
    requires |vals| == |factors| && Rectangular(vals, n) && k < n && i <= |factors|
    requires forall j :: 0 <= j < i ==> vals[j][k].None?
    ensures ScoreSum(factors, vals, n, k, i) == 0.0
  {
    if i > 0 {
      MissingAddsNothing(factors, vals, n, k, i - 1);
    }
  }

  /** The transformation does not decrease over the factor's range. */
  ghost predicate Monotone(f: Factor)
  {
    forall x, y :: f.minVal <= x <= y <= f.maxVal ==> f.transform(x) <= f.transform(y)
  }

  lemma {:induction false} MulLe(a: real, b: real, w: real)
    requires a <= b
    ensures w >= 0.0 ==> a * w <= b * w
    ensures w <= 0.0 ==> b * w <= a * w
  {
  }

  /** An answer within its range contributes between the factor's shares of
      the least and the greatest possible score. */
  lemma {:induction false} ContributionBounds(f: Factor, x: real)
    requires Monotone(f) && f.minVal <= x <= f.maxVal
    ensures MinTerm(f) <= Contribution(f, Some(x)) <= MaxTerm(f)
  {
    var t := f.transform;
    assert t(f.minVal) <= t(x) <= t(f.maxVal);
    MulLe(t(f.minVal), t(x), f.weight);
    MulLe(t(x), t(f.maxVal), f.weight);
  }

  lemma {:induction false} ScoreSumBounds(factors: seq<Factor>, vals: seq<seq<Option<real>>>, n: nat, k: nat, i: nat)
    requires |vals| == |factors| && Rectangular(vals, n) && k < n && i <= |factors|
    requires forall j :: 0 <= j < i ==> Monotone(factors[j])
    requires forall j :: 0 <= j < i ==>
      vals[j][k].Some? && factors[j].minVal <= vals[j][k].value <= factors[j].maxVal
    ensures MinPossible(factors[..i]) <= ScoreSum(factors, vals, n, k, i) <= MaxPossible(factors[..i])
  {
    if i > 0 {
      ScoreSumBounds(factors, vals, n, k, i - 1);
      var pre := factors[..i];
      var f := factors[i - 1];
      assert pre[..i - 1] == factors[..i - 1] && pre[i - 1] == f;
      ContributionBounds(f, vals[i - 1][k].value);
      AddBounds(MinPossible(factors[..i - 1]), ScoreSum(factors, vals, n, k, i - 1), MaxPossible(factors[..i - 1]),
                MinTerm(f), Contribution(f, vals[i - 1][k]), MaxTerm(f));
    }
  }

  lemma {:induction false} AddBounds(a: real, b: real, c: real, d: real, e: real, g: real)
    requires a <= b <= c && d <= e <= g
    ensures a + d <= b + e <= c + g
  {
  }

  /** The rescale maps the least possible sum to -100, the greatest to 100,
      and keeps the order of sums. */
  lemma {:induction false} RescaleEndpoints(lo: real, hi: real)
    requires lo < hi
    ensures Rescale(lo, lo, hi) == Finite(-100.0)
    ensures Rescale(hi, lo, hi) == Finite(100.0)
  {
    assert (hi - lo) / (hi - lo) == 1.0;
  }

  lemma {:induction false} RescaleMonotone(s: real, t: real, lo: real, hi: real)
    requires lo < hi && s <= t
    ensures Rescale(s, lo, hi).x <= Rescale(t, lo, hi).x
  {
    var d := hi - lo;
    assert (s - lo) / d <= (t - lo) / d by {
      DivLe(s - lo, t - lo, d);
    }
  }

  lemma {:induction false} DivLe(a: real, b: real, d: real)
    requires a <= b && d > 0.0
    ensures a / d <= b / d
  {
    assert b / d - a / d == (b - a) / d;
  }

  /** A fully answered, in-range, valid row rescales into [-100, 100]. */
  lemma {:induction false} ScoreInRange(factors: seq<Factor>, vals: seq<seq<Option<real>>>, n: nat, cutoff: real, k: nat)
    requires |vals| == |factors| && Rectangular(vals, n) && k < n
    requires forall j :: 0 <= j < |factors| ==> Monotone(factors[j])
    requires forall j :: 0 <= j < |factors| ==>
      vals[j][k].Some? && factors[j].minVal <= vals[j][k].value <= factors[j].maxVal
    requires MinPossible(factors) < MaxPossible(factors)
    requires ValidRow(factors, vals, n, cutoff, k)
    ensures ScoreAt(factors, vals, n, cutoff, true, k).Finite?
    ensures -100.0 <= ScoreAt(factors, vals, n, cutoff, true, k).x <= 100.0
  {
    var lo, hi := MinPossible(factors), MaxPossible(factors);
    var s := ScoreSum(factors, vals, n, k, |factors|);
    ScoreSumBounds(factors, vals, n, k, |factors|);
    assert factors[..|factors|] == factors;
    RescaleEndpoints(lo, hi);
    RescaleMonotone(lo, s, lo, hi);
    RescaleMonotone(s, hi, lo, hi);
  }

  // ---------------------------------------------------------------------
  // The date exclusion
  // ---------------------------------------------------------------------

  /** The scores with rows in an excluded date range masked to NaN, as the
      exclusion loop evidently means them to be. */
  function ScoreExcludingSpec(dates: seq<int>, cols: map<string, seq<Option<real>>>, factors: seq<Factor>,
                              cutoff: real, excludeDates: seq<(int, int)>, rescale: bool): (r: Result<seq<Float>>)
    requires forall c :: c in cols ==> |cols[c]| == |dates|
    ensures r.Ok? <==> ScoreSpec(|dates|, cols, factors, cutoff, rescale).Ok?
    ensures r.Ok? ==> |r.value| == |dates|
    ensures r.Ok? ==> forall k :: 0 <= k < |dates| ==>
      r.value[k] == (if OutsideExclusions(dates, excludeDates, k)
                     then ScoreSpec(|dates|, cols, factors, cutoff, rescale).value[k] else NaN)
  {
    match ScoreSpec(|dates|, cols, factors, cutoff, rescale)
    case Err(e) => Err(e)
    case Ok(s) =>
      Ok(seq(|dates|, k requires 0 <= k < |dates| => if OutsideExclusions(dates, excludeDates, k) then s[k] else NaN))
  }

  /** `calculate_score` with the exclusion mask kept: the cutoff-and-
      uniformity mask is combined with it (`valid &= ...`) instead of
      replacing it. */
  method CalculateScoreExcluding(dates: seq<int>, cols: map<string, seq<Option<real>>>, factors: seq<Factor>,
                                 cutoff: real, excludeDates: seq<(int, int)>, rescale: bool)
    returns (r: Result<seq<Float>>)
    requires forall c :: c in cols ==> |cols[c]| == |dates|
    ensures r == ScoreExcludingSpec(dates, cols, factors, cutoff, excludeDates, rescale)
  {
    var n := |dates|;
    var mask := ExclusionMask(dates, excludeDates);
    var looked := FactorColumns(cols, factors);
    if looked.Err? {
      return Err(looked.error);
    }
    var vals := looked.value;
    var valid := seq(n, k requires 0 <= k < n => mask[k] && ValidRow(factors, vals, n, cutoff, k));
    var s := FactorSums(factors, vals, n);
    var lo, hi := PossibleExtremes(factors);
    var scores := seq(n, k requires 0 <= k < n =>
      if !valid[k] then NaN else if rescale then Rescale(s[k], lo, hi) else Finite(s[k]));
    ghost var spec := ScoreSpec(n, cols, factors, cutoff, rescale).value;
    assert forall k :: 0 <= k < n ==> spec[k] == ScoreAt(factors, vals, n, cutoff, rescale, k);
    assert forall k :: 0 <= k < n ==>
      scores[k] == (if OutsideExclusions(dates, excludeDates, k) then spec[k] else NaN);
    assert scores == ScoreExcludingSpec(dates, cols, factors, cutoff, excludeDates, rescale).value;
    r := Ok(scores);
  }

  /** With the mask combined instead of replaced, a row dated inside an
      excluded range scores NaN. */
  lemma {:induction false} ExcludedRowsAreNaN(dates: seq<int>, cols: map<string, seq<Option<real>>>, factors: seq<Factor>,
                           cutoff: real, excludeDates: seq<(int, int)>, rescale: bool, k: nat, e: nat)
    requires forall c :: c in cols ==> |cols[c]| == |dates|
    requires ScoreSpec(|dates|, cols, factors, cutoff, rescale).Ok?
    requires k < |dates| && e < |excludeDates| && Between(dates[k], excludeDates[e])
    ensures ScoreExcludingSpec(dates, cols, factors, cutoff, excludeDates, rescale).value[k] == NaN
  {
  }

  /** As written, a row inside an excluded range still gets its score: one
      answered factor on day 5, excluded by the range 0..10, scores 2. */
  lemma {:induction false} ExclusionIgnored()
    ensures ScoreSpec(1, map["energy" := [Some(2.0)]], [Factor("energy", 1.0, 4.0, 1.0, x => x)], 1.0, false)
         == Ok([Finite(2.0)])
    ensures ScoreExcludingSpec([5], map["energy" := [Some(2.0)]], [Factor("energy", 1.0, 4.0, 1.0, x => x)],
                               1.0, [(0, 10)], false) == Ok([NaN])
  {
    var f := Factor("energy", 1.0, 4.0, 1.0, x => x);
    var cols := map["energy" := [Some(2.0)]];
    var vals := [[Some(2.0)]];
    assert [f][1..] == [];
    assert FactorColumns(cols, []) == Ok([]);
    assert f.name in cols && cols[f.name] == [Some(2.0)];
    assert FactorColumns(cols, [f]).Ok?;
    assert FactorColumns(cols, [f]).value == [cols[f.name]] + [];
    assert [cols[f.name]] + [] == vals;
    assert FactorColumns(cols, [f]) == Ok(vals);
    assert Available(vals, 1, 0, 1) == 1;
    assert !Uniform([f], vals, 0);
    assert ScoreSum([f], vals, 1, 0, 1) == 2.0;
    assert ScoreSpec(1, cols, [f], 1.0, false).value == [Finite(2.0)];
    assert Between([5][0], [(0, 10)][0]);
    assert ScoreExcludingSpec([5], cols, [f], 1.0, [(0, 10)], false).value == [NaN];
  }
}
