# life-dashboard data preparation, modelled in Dafny

life-dashboard builds a personal dashboard out of several exports: Apple
Health records and workouts, a strength-training log, and a mood and symptom
diary. The `prepare_data` package turns these exports into tidy tables using
pandas. This project models the four core files of that package and proves
properties of the model:

- `process_data.py`: column-name cleaning, Apple Health record cleaning,
  completing a date range (`join_dates`), workout extraction, the weight
  series, the weightlifting pipeline (merge with body mass, Epley one-rep
  maximum, daily, cumulative and 90-day maxima, filtering);
- `perform_calculations.py`: daily volume, zero-filling missing dates, and
  the forward-filled weight series of `PerformCalculations`;
- `process_mental_health.py`: cleaning the merged diary table, overriding
  `elevated` on exceptional days, the weighted, cut-off and rescaled scores,
  reshaping to a tidy table, and the non-exercise goal table;
- `classify_exercises.py`: chunking exercise names into prompts, extracting
  JSON from a model reply, exploding muscle groups, the lookup merge, and the
  `majority_or_unclear` vote per exercise.

## Conventions

- A DataFrame is modelled as values. Depending on what the code does with it,
  that is a sequence of typed rows or a `Frame` of named columns (module
  `MentalHealth`).
- The code does some updates in place on purpose:
  - `clean_dataframe` reassigns column names;
  - `calculate_1RM` writes `data.at[idx, ...]`;
  - `add_scores_to_exceptional_days` overwrites `elevated` once per phrase;
  - `clean_merged_data` fills NA column by column;
  - `wrangle_non_exercise_goal_data` offsets columns;
  - `fillna(..., inplace=True)` fills a column.

  Those are `method`s over an `array`, proved equal to a specification
  function of the old contents. The other pandas operations build new frames,
  and they are functions.
- NaN (and `None`) is `Option.None`. A Python exception is `Result.Err`
  carrying the exception class (`KeyError`, `TypeError`, `ValueError`,
  `AttributeError`).
- A calendar date is an `int` day number. A timestamp is an `int` count of
  seconds. Dates in the diary are ISO `YYYY-MM-DD` strings; these compare
  like strings, just as pandas compares them.
- Numbers are mathematical reals. `float64` rounding is not modelled. A
  float64 division by zero in the score rescaling is modelled explicitly as
  `PosInf`, `NegInf` or `NaN`.
- Parameters stand for the things the code gets from outside:
  - `datetime.now().date()` is the parameter `today`;
  - pandas' linear `interpolate` is a function parameter;
  - each variable's transformation lambda in `calculate_score` is a
    `real -> real` field of `Factor`.

Where the design description and the code disagree, the model follows the
code:

- `wrangle_weight_data` keeps the minimum body mass of a day
  (`groupby("date").agg(min)`), not the latest entry.
- `wrangle_weightlifting_data` drops rows whose one-rep maximum is missing or
  not positive (its filter), so it does not keep every row.

## Model

| member | source | states |
|---|---|---|
| Common.MaxOfIsGreatest | prepare_data/process_data.py:299-301 | a NaN-skipping maximum is present iff some cell is, is one of the cells, and no present cell exceeds it |
| Common.MinOfIsLeast | prepare_data/process_data.py:232-234 | a NaN-skipping minimum is present iff some cell is, is one of the cells, and no present cell is below it |
| Common.MaxOfMono | prepare_data/process_data.py:304-317 | the maximum over a collection whose present cells all occur in a second collection is at most the second's maximum |
| Common.SumAppend | prepare_data/perform_calculations.py:20-24 | a `sum` aggregate splits over concatenated rows |
| Order.StrLessIrreflexive | prepare_data/process_data.py:296 | lexicographic string order used by `sort_values` never ranks a string below itself |
| Order.StrLessTransitive | prepare_data/process_data.py:296 | lexicographic string order is transitive |
| Order.StrLessTrichotomy | prepare_data/process_data.py:296 | any two strings are ordered one way, or are equal |
| Order.InsertByKeeps | prepare_data/process_data.py:337 | one insertion step of the stable sort adds exactly the inserted row to the multiset |
| Order.InsertBySorted | prepare_data/process_data.py:337 | inserting into a sorted sequence under a total preorder keeps it sorted |
| Order.SortedCons | prepare_data/process_data.py:337 | a row below every row of a sorted tail can head it |
| Order.SortByCorrect | prepare_data/process_data.py:296 | `sort_values` yields a sorted permutation of its input |
| Order.SortBySortedIsIdentity | prepare_data/process_data.py:354 | re-sorting an already sorted table leaves it unchanged (the stable sort) |
| Order.InsertAtEnd | prepare_data/process_data.py:354 | a row not below any existing row is inserted at the end |
| Order.InsertUniqueCorrect | prepare_data/process_data.py:233 | adding a key to a strictly sorted key list keeps it strictly sorted, with members the old ones plus the key |
| Order.InsertUniqueMembers | prepare_data/process_data.py:233 | the key list after adding a key holds exactly the old keys and the new one |
| Order.InsertUniqueSorted | prepare_data/process_data.py:233 | adding a key keeps the key list strictly sorted |
| Order.StrictCons | prepare_data/process_data.py:233 | a key below the head of a strictly sorted list can be prepended |
| Order.DistinctSortedCorrect | prepare_data/process_data.py:299-301 | the group keys of a `groupby` are strictly ascending and are exactly the values that occur |
| Order.StrictlySortedDistinct | prepare_data/process_data.py:299-301 | strictly ascending group keys are pairwise distinct |
| Order.IntLessStrict | prepare_data/process_data.py:233 | the order on day numbers is a strict total order |
| Order.StrLessStrict | prepare_data/classify_exercises.py:152 | the order on exercise names is a strict total order |
| Text.FindFrom | prepare_data/classify_exercises.py:85-86 | the first occurrence of a pattern at or after a position, or none at all |
| Text.ContainsIff | prepare_data/process_data.py:388 | the `in` test on strings holds iff the pattern occurs somewhere |
| Text.Split | prepare_data/classify_exercises.py:122-124 | `str.split(sep)` always yields at least one piece |
| Text.JoinCons | prepare_data/classify_exercises.py:103-104 | `", ".join` of a list with a head is the head, the separator and the join of the rest |
| Text.SplitJoin | prepare_data/classify_exercises.py:122-124 | joining the pieces of `str.split(sep)` with `sep` gives back the original string |
| Text.SplitJoinStep | prepare_data/classify_exercises.py:122-124 | the split/join round trip holds when it holds after the first separator |
| Text.SplitPiecesFree | prepare_data/classify_exercises.py:122-124 | no piece of `str.split(sep)` contains `sep` |
| Text.SplitOfFree | prepare_data/classify_exercises.py:85 | a string without the separator splits into itself alone (so `[1]` raises) |
| Text.SplitOfContaining | prepare_data/classify_exercises.py:85 | a string containing the separator splits into at least two pieces |
| Text.ReplaceAllAbsent | prepare_data/process_data.py:38 | `str.replace` with an absent pattern changes nothing |
| Text.ReplaceAllCharacterized | prepare_data/process_data.py:38 | `str.replace` is the split on the pattern joined with the replacement, and the pieces are pattern-free |
| Text.RemoveLeading | prepare_data/process_data.py:38 | removing a prefix pattern from `pattern + t` gives `t` when `t` has no pattern |
| Text.RemoveTrailing | prepare_data/process_mental_health.py:439 | removing a pattern such as `_partial` from `t + pattern` gives back `t` when `t` lacks one of the pattern's characters and its first character does not recur in it |
| Text.FindFromSkips | prepare_data/classify_exercises.py:85 | the search returns the first occurrence after positions with none |
| Text.SplitAtFirst | prepare_data/classify_exercises.py:85 | splitting `pre + sep + tail` with no earlier separator yields `pre` then the pieces of `tail` |
| Text.FindFromNone | prepare_data/classify_exercises.py:86 | no occurrence after a position means the search finds none |
| Text.ReplaceSingleChar | prepare_data/process_data.py:8 | replacing a one-character pattern maps that character everywhere |
| Text.NoCharBefore | prepare_data/process_data.py:8 | no one-character occurrence before a position means no such character there |
| Text.ReplaceAllNone | prepare_data/process_data.py:38 | `str.replace` of a pattern that is not found is the identity |
| Text.ReplaceAllStep | prepare_data/process_data.py:38 | `str.replace` rewrites the first occurrence and continues after it |
| Text.MapCharNone | prepare_data/process_data.py:8 | mapping a character that does not occur is the identity |
| Text.MapCharStep | prepare_data/process_data.py:8 | mapping a character rewrites its first occurrence and continues after it |
| Text.TrimLeft | prepare_data/classify_exercises.py:85 | left `strip` gives a suffix that does not start with whitespace |
| Text.TrimRight | prepare_data/classify_exercises.py:85 | right `strip` gives a prefix that does not end with whitespace |
| Text.TrimLeftSpaceOnly | prepare_data/classify_exercises.py:85 | left `strip` removes whitespace only |
| Text.TrimRightSpaceOnly | prepare_data/classify_exercises.py:85 | right `strip` removes whitespace only |
| Text.RStripChar | prepare_data/classify_exercises.py:85 | `rstrip("```")` gives a prefix that does not end with a backtick |
| Text.RStripCharOnly | prepare_data/classify_exercises.py:85 | `rstrip("```")` removes backticks only |
| Text.CollapseFromSpaceFree | prepare_data/process_mental_health.py:46 | `re.sub(r"\s+", "_")` leaves no whitespace, from any scanning state |
| Text.CollapseSpaceFree | prepare_data/process_mental_health.py:46 | the result of `re.sub(r"\s+", "_")` holds no whitespace |
| Text.CollapseFromIdentity | prepare_data/process_mental_health.py:46 | a whitespace-free name is unchanged, from any scanning state |
| Text.CollapseIdentity | prepare_data/process_mental_health.py:46 | `re.sub(r"\s+", "_")` leaves a whitespace-free name unchanged |
| Text.CollapseFromConcat | prepare_data/process_mental_health.py:46 | the substitution distributes over a split point after a non-space character |
| Text.CollapseFromStep | prepare_data/process_mental_health.py:46 | one step of the substitution scan |
| Text.CollapseConcat | prepare_data/process_mental_health.py:46 | the substitution distributes over a split point after a non-space character |
| Text.CollapseWithinRun | prepare_data/process_mental_health.py:46 | further whitespace, scanned while inside a run already replaced, adds nothing |
| Text.CollapseLeadingRun | prepare_data/process_mental_health.py:46 | a leading whitespace run becomes one underscore |
| Text.CollapseRun | prepare_data/process_mental_health.py:46 | a whitespace run between two words becomes exactly one underscore |
| Text.LowerFacts | prepare_data/process_mental_health.py:46 | `lower()` keeps the length, keeps a whitespace-free name whitespace-free, and is idempotent |
| Health.CleanColumnNameAt | prepare_data/process_data.py:6-9 | each character of a cleaned column name is its lower-cased original, or `_` for a space |
| Health.CleanColumnNameIdempotent | prepare_data/process_data.py:6-9 | cleaning a column name twice is the same as cleaning it once |
| Health.CleanDataframe | prepare_data/process_data.py:6-9 | `clean_dataframe` replaces every column name by its cleaned form, in place |
| Health.StopIndex | prepare_data/process_data.py:39 | the lazy `(.*?),` capture ends at the first comma or line break |
| Health.MatchesAtIff | prepare_data/process_data.py:39 | `name:(.*?),` matches at a position iff `name:` starts there and a comma ends the capture before any line break; the capture is unique |
| Health.ExtractFromCorrect | prepare_data/process_data.py:39 | the scan returns the capture of the leftmost match at or after a position, or none when no match exists |
| Health.NoMatchAt | prepare_data/process_data.py:39 | a position without a match is skipped by the scan |
| Health.ExtractDeviceCorrect | prepare_data/process_data.py:39 | `str.extract` yields the leftmost match's capture, and NaN exactly when the pattern matches nowhere |
| Health.ProcessRecordData | prepare_data/process_data.py:17-44 | record cleaning keeps one row per input row |
| Health.ProcessRecordDataFields | prepare_data/process_data.py:17-44 | each cleaned record keeps value and end date; its type is the original with every `HKQuantityTypeIdentifier` removed; its device is the extracted name; date, weekday, hour and minute agree with the end date |
| Health.CleanTypeStripsPrefix | prepare_data/process_data.py:38 | a type written as the prefix plus a name is cleaned to the name |
| Health.MinDate | prepare_data/process_data.py:77 | `data["date"].min()` is one of the dates and no date is earlier |
| Health.RowsOnMembers | prepare_data/process_data.py:108 | the rows joined onto a day are exactly the data rows of that day |
| Health.JoinDayMembers | prepare_data/process_data.py:108 | joining one day yields at least one row, each of that day, drawn from the data or empty, and keeps every data row of the day |
| Health.JoinRangeMembers | prepare_data/process_data.py:79-108 | the left join onto a day range covers every day of the range, stays inside it, and keeps every data row in it |
| Health.JoinRangeKeeps | prepare_data/process_data.py:79-108 | a data row inside the range appears in the joined table |
| Health.JoinRangeAscending | prepare_data/process_data.py:79-108 | the joined table is in ascending date order |
| Health.JoinDatesCorrect | prepare_data/process_data.py:46-110 | `join_dates` fails iff the data is empty; otherwise every day from the first date to today has a row, each row is in that range and is a data row or empty, rows ascend, and every data row up to today is kept |
| Health.MetricRowsOnMembers | prepare_data/process_data.py:106 | the rows joined onto a (day, metric) key are exactly the data rows with that key |
| Health.MinMetricDate | prepare_data/process_data.py:77 | the first date of the multi-metric data is one of its dates and no date is earlier |
| Health.JoinDayMetricMembers | prepare_data/process_data.py:106 | joining one (day, metric) key yields rows with that key, drawn from the data or empty, and keeps every matching data row |
| Health.JoinMetricsMembers | prepare_data/process_data.py:97-106 | the day joined against the metric list has a row for every metric and keeps every data row of that day with a listed metric |
| Health.JoinRangeMetricsMembers | prepare_data/process_data.py:97-106 | the Cartesian date×metric join covers every (day, metric) pair of the range and keeps matching data rows |
| Health.JoinDatesByMetricCorrect | prepare_data/process_data.py:68-108 | multi-metric `join_dates` fails iff the data is empty or the metric type is unknown (the unbound `metrics`); otherwise every (day, listed metric) pair up to today has a row, rows stay in range with listed metrics, and matching data rows are kept |
| Health.SoccerRowsCorrect | prepare_data/process_data.py:135 | the soccer selection holds exactly the reshaped Soccer workouts |
| Health.SoccerRowsFrom | prepare_data/process_data.py:135 | every soccer row comes from a Soccer workout |
| Health.SoccerRowsKeep | prepare_data/process_data.py:135 | every Soccer workout is selected |
| Health.CardioRowsCorrect | prepare_data/process_data.py:136-139 | the cardio selection holds exactly the reshaped workouts whose type is in the cardio list |
| Health.CardioRowsFrom | prepare_data/process_data.py:136-139 | every cardio row comes from a listed cardio workout |
| Health.CardioRowsKeep | prepare_data/process_data.py:136-139 | every listed cardio workout is selected |
| Health.ExtractWorkoutCount | prepare_data/process_data.py:144 | the combined table has one row per kept workout |
| Health.ExtractWorkoutDataCorrect | prepare_data/process_data.py:112-150 | the result has one row per Soccer or cardio workout, only those types, Soccer rows first, each row a reshaped kept workout, and every kept workout present |
| Health.SamplesWithin | prepare_data/process_data.py:165 | the filter never adds rows |
| Health.SamplesWithinCorrect | prepare_data/process_data.py:165 | a sample is kept iff it starts no earlier and ends no later than the workout |
| Health.GetDataForWorkoutCorrect | prepare_data/process_data.py:152-165 | `.item()` fails unless exactly one workout row is given; otherwise the kept samples are exactly those inside the workout |
| Health.MinuteProportionRoundTrip | prepare_data/process_data.py:167-168 | the conversion keeps the whole part, maps the fraction into [0, 0.6), and the original is recovered from the result |
| Health.GetPaceForWorkout | prepare_data/process_data.py:170-174 | zero distance gives pace 0.0; a missing duration or distance fails in `int()`; otherwise the pace is the converted duration/distance quotient |
| Health.GetPaceForWorkoutMinutes | prepare_data/process_data.py:170-174 | a non-negative pace keeps the whole minutes of duration/distance, holds the fraction as seconds below 0.60, and gives back duration/distance when the scaling is undone |
| Weight.BodyMassValuesHas | prepare_data/process_data.py:228 | every BodyMass record contributes its (date, value) pair |
| Weight.BodyMassValuesFrom | prepare_data/process_data.py:228 | every selected pair comes from a BodyMass record |
| Weight.BodyMassValuesEmpty | prepare_data/process_data.py:228 | the selection is empty iff no record is BodyMass |
| Weight.JoinedValues | prepare_data/process_data.py:230 | the value column has one cell per joined row |
| Weight.JoinedDates | prepare_data/process_data.py:233 | the date column has one cell per joined row |
| Weight.Settle | prepare_data/process_data.py:230 | gap filling keeps the length and every present value |
| Weight.ValuesOnMembers | prepare_data/process_data.py:232-234 | the cells of a date group are exactly the cells on rows of that date |
| Weight.GroupMinByDateCorrect | prepare_data/process_data.py:232-234 | the per-date minimum has one row per distinct date in ascending order; a row is present iff a cell of that date is; it equals one of them and none is smaller |
| Weight.GroupMinByDateDays | prepare_data/process_data.py:232-234 | the per-date minimum has ascending dates, exactly the dates that occur |
| Weight.GroupMinRow | prepare_data/process_data.py:232-234 | one row of the per-date minimum is present iff some cell is, is attained, and bounds every present cell from below |
| Weight.ToPounds | prepare_data/process_data.py:231 | each cell is the kilogram cell times 2.20462, NaN staying NaN |
| Weight.WeightSeriesDays | prepare_data/process_data.py:226-236 | the weight series fails iff no record is BodyMass; otherwise it has exactly one row per day from the first BodyMass date to today, in ascending order |
| Weight.JoinedDatesSpan | prepare_data/process_data.py:77-81 | the joined date column covers exactly the first data date through today |
| Weight.JoinedRowsOnDataDay | prepare_data/process_data.py:108 | on a day with data every joined row carries one of that day's data values |
| Weight.JoinedValuesFromRecords | prepare_data/process_data.py:228-230 | on a day whose records all have a value, every joined cell is one of those values |
| Weight.RecordValuesJoined | prepare_data/process_data.py:228-229 | every BodyMass record up to today has its value on a joined row of its date |
| Weight.WeightSeriesUpToToday | prepare_data/process_data.py:77-81 | every row of the series lies on or before today |
| Weight.WeightSeriesGroups | prepare_data/process_data.py:226-236 | the series is the per-date minimum of the filled, pound-converted joined values |
| Weight.WeightSeriesAttained | prepare_data/process_data.py:231-234 | on a day whose records all have a value, the day's body mass is one of them in pounds |
| Weight.JoinedPoundsFrom | prepare_data/process_data.py:230-231 | on such a day a joined pound cell is a record value times 2.20462 |
| Weight.WeightSeriesBelow | prepare_data/process_data.py:232-234 | the day's body mass is at most each of that day's records in pounds |
| Weight.JoinedPoundsOf | prepare_data/process_data.py:228-231 | every BodyMass record with a value appears, in pounds, on a joined row of its date |
| Weight.WeightSeriesMinimum | prepare_data/process_data.py:226-236 | on a day whose records all have a value, the body mass is the minimum of those records in pounds: attained and below all of them |
| Weight.ForwardFill | prepare_data/perform_calculations.py:86 | forward fill keeps the column length |
| Weight.LastPresentMeaning | prepare_data/perform_calculations.py:86 | the last present value up to a row is that row's value when present, missing iff nothing earlier is present, and otherwise the nearest earlier present value |
| Weight.LastPresentPrefix | prepare_data/perform_calculations.py:86 | the last present value up to a row depends only on the rows before it |
| Weight.ForwardFillAt | prepare_data/perform_calculations.py:86 | the forward-filled cell of a row is the last present value up to that row |
| Weight.LastPresentStep | prepare_data/perform_calculations.py:86 | a present row is its own last value; a missing row takes its predecessor's |
| Weight.ForwardFillIsLastPresent | prepare_data/perform_calculations.py:86 | forward fill is, cell by cell, the last present value |
| Weight.ForwardFillCorrect | prepare_data/perform_calculations.py:86 | `ffill` keeps present cells, leaves a cell NaN iff nothing at or before it is present, and otherwise copies the nearest earlier present value |
| Weight.SettleForwardFill | prepare_data/perform_calculations.py:86 | forward fill is a valid gap filler for the shared weight pipeline |
| Weight.ForwardFillInPlace | prepare_data/perform_calculations.py:86 | the in-place `fillna(method="ffill")` leaves the column equal to the forward fill of its old contents |
| Weight.PerformWrangleWeightDataAlwaysFails | prepare_data/perform_calculations.py:82 | as written, `PerformCalculations.wrangle_weight_data` raises AttributeError on every input |
| Weight.PerformWrangleWeightDataCorrect | prepare_data/perform_calculations.py:78-89 | with the record cleaning it evidently means, it succeeds iff some record is BodyMass, and then gives one ascending row per day from the first BodyMass date to today; on a day whose BodyMass records all carry a value, that day's row is their minimum converted to pounds |
| Weightlifting.MatchesOnDistinct | prepare_data/process_data.py:345 | with at most one weight row per date, a set joins to at most one weight row, the one holding its date's body mass |
| Weightlifting.NoEarlierMatch | prepare_data/process_data.py:345 | a set dated after every weight row matches none |
| Weightlifting.MergeWeightCorrect | prepare_data/process_data.py:345 | the left merge keeps every set, in order, with its date's body mass or NaN |
| Weightlifting.EpleyProperties | prepare_data/process_data.py:402-404 | `w * (1 + reps/30)` is `w` at zero reps, is positive iff `w` is, and grows with reps |
| Weightlifting.BaseWeightCases | prepare_data/process_data.py:398-404 | unweighted exercises use body mass; other barbell exercises add 44 to the weight; the rest use the weight |
| Weightlifting.UniqueCorrect | prepare_data/process_data.py:386 | `unique()` keeps exactly the names that occur, without repeats |
| Weightlifting.TaggedMembers | prepare_data/process_data.py:387-389 | the barbell list holds exactly the unique names containing `(Barbell)` |
| Weightlifting.BarbellExercisesIff | prepare_data/process_data.py:385-389 | an exercise of the table is a barbell exercise iff its name contains `(Barbell)` |
| Weightlifting.Calculate1RM | prepare_data/process_data.py:361-414 | the `iterrows` loop leaves every row with NaN names replaced by `Unknown` and its one-rep maximum from the base weight and reps |
| Weightlifting.OrmsInHas | prepare_data/process_data.py:312-317 | a row of the exercise inside the window contributes its one-rep maximum |
| Weightlifting.OrmsInWithin | prepare_data/process_data.py:304-317 | a smaller window's cells all occur in a larger window |
| Weightlifting.MaxWithin | prepare_data/process_data.py:304-317 | the maximum over a smaller window is at most the maximum over a larger one |
| Weightlifting.NameLessOrder | prepare_data/process_data.py:296 | NaN-last name order is irreflexive, transitive and total |
| Weightlifting.NameDateLeTotal | prepare_data/process_data.py:296 | ordering by (exercise_name, date) is a total preorder |
| Weightlifting.DateNameLeTotal | prepare_data/process_data.py:337 | ordering by (date, exercise_name) is a total preorder |
| Weightlifting.MergeMetrics | prepare_data/process_data.py:323-329 | the merge of the metrics back keeps one row per data row |
| Weightlifting.MergeMetricsPermutation | prepare_data/process_data.py:323-329 | attaching the metrics to a reordering of the rows gives a reordering of the merged rows, multiplicities included |
| Weightlifting.CalculateDerivativeMetricsCorrect | prepare_data/process_data.py:291-339 | the result has one row per input row, is sorted by (date, name), each row is an input row with its cumulative and 90-day maxima, every input row appears so, and as a multiset it is exactly the input rows with their metrics, each as often as in the input |
| Weightlifting.RowBelowDayMax | prepare_data/process_data.py:299-301 | a set's one-rep maximum is at most its exercise's daily maximum |
| Weightlifting.MetricBounds | prepare_data/process_data.py:299-317 | daily maximum ≤ 90-day rolling maximum ≤ cumulative maximum |
| Weightlifting.RunningMaxMonotone | prepare_data/process_data.py:304-306 | the cumulative maximum of an exercise never decreases over time |
| Weightlifting.CummaxNonDecreasing | prepare_data/process_data.py:304-306 | in the output, a later row of the same exercise never has a smaller cumulative maximum |
| Weightlifting.MetricRowBounds | prepare_data/process_data.py:291-339 | in the output each row's one-rep maximum ≤ its daily maximum ≤ its rolling maximum ≤ its cumulative maximum |
| Weightlifting.FilterExerciseData | prepare_data/process_data.py:416-428 | the filter never adds rows and keeps only positive one-rep maxima |
| Weightlifting.FilterAppend | prepare_data/process_data.py:416-428 | the row filter distributes over concatenation |
| Weightlifting.FilterMembers | prepare_data/process_data.py:420-426 | every named row with a positive one-rep maximum survives, projected |
| Weightlifting.FilterFrom | prepare_data/process_data.py:420-426 | every surviving row is the projection of a named input row with a positive one-rep maximum |
| Weightlifting.FilterSorted | prepare_data/process_data.py:416-428 | filtering keeps date order |
| Weightlifting.DateSortKeepsOrder | prepare_data/process_data.py:354 | a table sorted by (date, name) is sorted by date, and the stable date sort leaves it unchanged |
| Weightlifting.WrangleWeightliftingData | prepare_data/process_data.py:341-359 | the pipeline result is the merge, 1RM, metrics, sort and filter in sequence, and is date-sorted with positive one-rep maxima |
| Volume.VolumeOfTotals | prepare_data/perform_calculations.py:20-24 | the grouped totals sum to the total of the rows on the listed dates |
| Volume.KeyTotalNoRows | prepare_data/perform_calculations.py:20-24 | with no rows every group total is zero |
| Volume.KeyTotalAppendRow | prepare_data/perform_calculations.py:20-24 | a new row adds its one-rep maximum exactly once, when its date is a key |
| Volume.KeyTotalCovers | prepare_data/perform_calculations.py:20-24 | when every row's date is a key, the group totals add up to the grand total |
| Volume.VolumeOnAbsent | prepare_data/perform_calculations.py:20-24 | a date without lifts has volume zero |
| Volume.WrangleVolumeDataCorrect | prepare_data/perform_calculations.py:8-26 | daily volume has strictly ascending dates, exactly the lifting days, each day's total, and sums to the grand total |
| Volume.MinMaxCorrect | prepare_data/perform_calculations.py:33-34 | `min()` and `max()` of the dates are attained and bound every date |
| Volume.FillNaZero | prepare_data/perform_calculations.py:43-46 | the in-place `fillna(0)` replaces exactly the missing cells by 0 |
| Volume.FillMissingDates | prepare_data/perform_calculations.py:28-48 | the method returns the specification's table or error |
| Volume.FillMissingDatesErrors | prepare_data/perform_calculations.py:28-48 | it fails iff the table is empty (`date_range` of NaT), `fill_column="date"` is renamed to another name (the merge then lacks its key), the rename targets `date`, or the fill column is missing; an empty table gives ValueError; renaming the date column gives KeyError('date'); the default and renaming calls on a present column succeed |
| Volume.MatchingDates | prepare_data/perform_calculations.py:42-45 | the rows matched onto a date are of that date |
| Volume.MatchingKeeps | prepare_data/perform_calculations.py:42-45 | every row matches its own date |
| Volume.MergeRangeDates | prepare_data/perform_calculations.py:35-45 | the merged table stays in the range and is date-ordered |
| Volume.MergeRangeCovers | prepare_data/perform_calculations.py:35-45 | the merged table covers every day of the range and keeps each data row in it |
| Volume.MatchingAbsent | prepare_data/perform_calculations.py:42-45 | a missing date matches nothing and has a NaN value |
| Volume.JoinOnUnique | prepare_data/perform_calculations.py:42-45 | with unique dates, a day joins to exactly one row carrying that day's value |
| Volume.MergeRangeUnique | prepare_data/perform_calculations.py:35-45 | with unique dates the merge has one row per day, the k-th being day `lo + k` with its value |
| Volume.ValueOnAt | prepare_data/perform_calculations.py:42-45 | with unique dates, a row's date looks up its own value |
| Volume.ZeroFilledMerge | prepare_data/perform_calculations.py:35-46 | after the zero fill every day of the range is present, no cell is NaN, dates ascend, and data rows are kept with NaN as 0 |
| Volume.ZeroFilledMergeUnique | prepare_data/perform_calculations.py:35-46 | with unique dates the k-th output row is day `lo + k` with its value or 0 |
| Volume.FillMissingDatesRows | prepare_data/perform_calculations.py:28-48 | a successful call is the zero-filled left merge onto the min..max date range, under the target column name |
| Volume.DatesWithin | prepare_data/perform_calculations.py:33-35 | every row lies between the minimum and maximum date |
| Volume.FillMissingDatesCorrect | prepare_data/perform_calculations.py:28-48 | the result covers every day from the first to the last date, only those days, ascending, with no NaN, and keeps every input row with NaN as 0 |
| Volume.FillMissingDatesUnique | prepare_data/perform_calculations.py:28-48 | with unique input dates the result has exactly one row per day of the range, carrying the day's value or 0 |
| Volume.ProcessVolumeData | prepare_data/perform_calculations.py:50-56 | the method returns the specification's result |
| Volume.SameExtremes | prepare_data/perform_calculations.py:33-34 | date lists with the same members have the same minimum and maximum |
| Volume.WrangledValueOn | prepare_data/perform_calculations.py:20-24 | the daily table has unique dates, a row exactly on lifting days, holding that day's total, and the total is zero elsewhere |
| Volume.WrangledExtremes | prepare_data/perform_calculations.py:33-34 | the daily table spans the same first and last date as the lifts |
| Volume.ProcessedDay | prepare_data/perform_calculations.py:46 | after the zero fill each day carries its lifting total |
| Volume.ProcessedRows | prepare_data/perform_calculations.py:50-56 | the zero-filled table is the per-day totals over the day range |
| Volume.ProcessVolumeDataCorrect | prepare_data/perform_calculations.py:50-56 | no lifts gives ValueError; otherwise the result is `one_rep_max` per day from the first to the last lifting day, each day's total, 0 on rest days |
| Volume.DailyVolumeTotal | prepare_data/perform_calculations.py:50-56 | the per-day totals over a range holding every lift add up to the grand total |
| Volume.ProcessVolumeDataTotal | prepare_data/perform_calculations.py:50-56 | with some lifting, the `one_rep_max` table `process_volume_data` returns sums, over all its days, to the summed one-rep maxima of every lift |
| Volume.DayInDays | prepare_data/perform_calculations.py:35 | every day of the range is listed |
| Volume.LiftDatesInRange | prepare_data/perform_calculations.py:33-35 | every lift falls inside the first..last date range |
| MentalHealth.IndexFrom | prepare_data/process_mental_health.py:49 | the column lookup returns the first column of that name at or after a position, or none |
| MentalHealth.IndexOfIff | prepare_data/process_mental_health.py:49 | the lookup succeeds iff the name is a column name |
| MentalHealth.SnakeCaseProperties | prepare_data/process_mental_health.py:46 | a snake-cased name has no whitespace; snake-casing is idempotent and only lower-cases a whitespace-free name |
| MentalHealth.SnakeCaseLeadingRun | prepare_data/process_mental_health.py:46 | a leading whitespace run becomes one underscore |
| MentalHealth.SnakeCaseRun | prepare_data/process_mental_health.py:46 | a whitespace run between words becomes exactly one underscore |
| MentalHealth.RenameColumns | prepare_data/process_mental_health.py:46 | renaming keeps every column |
| MentalHealth.FillNa | prepare_data/process_mental_health.py:50 | `fillna` from another column keeps the length |
| MentalHealth.MeanCells | prepare_data/process_mental_health.py:49 | the averaged column has one cell per row |
| MentalHealth.CombineLiberty | prepare_data/process_mental_health.py:48-50 | combining liberty keeps the frame well-formed, its height and its column names |
| MentalHealth.CombineLibertyCorrect | prepare_data/process_mental_health.py:48-50 | on success, present `liberty` cells are kept, missing ones become the mean of positive and negative liberty (NaN where either part is NaN, a string beside a NaN included), and every other column is unchanged |
| MentalHealth.CombineLibertyOutcome | prepare_data/process_mental_health.py:48-50 | the step succeeds iff the three liberty columns exist and no row pairs two present parts of which one is a string (pandas adds object columns only where both cells are present); with the columns present the only failure is TypeError |
| MentalHealth.DropHelpers | prepare_data/process_mental_health.py:53-60 | dropping never adds columns |
| MentalHealth.DropHelpersMembers | prepare_data/process_mental_health.py:53-60 | a column survives iff it is not one of the five helper names (absent ones ignored) |
| MentalHealth.DropHelpersValid | prepare_data/process_mental_health.py:53-60 | dropping keeps the frame well-formed |
| MentalHealth.MoveDateFirst | prepare_data/process_mental_health.py:63-64 | with a `date` column the result has `date` first and the same columns otherwise; without one it is a KeyError |
| MentalHealth.CellLessIrreflexive | prepare_data/process_mental_health.py:71-73 | Python's `<` on date cells (strings with strings, numbers with numbers) never ranks a cell below itself |
| MentalHealth.CellLessTransitive | prepare_data/process_mental_health.py:71-73 | that order is transitive |
| MentalHealth.CellLessTrichotomy | prepare_data/process_mental_health.py:71-73 | two strings, or two numbers, are ordered one way or are equal |
| MentalHealth.FirstObservedIsLeast | prepare_data/process_mental_health.py:71 | the NaN-skipping first date exists iff some row has both a value and a date, is such a row's date, and no such date is earlier |
| MentalHealth.FirstObservedMatchesMin | prepare_data/process_mental_health.py:71 | where `min` does not raise (no string date beside a NaN date among the rows with a value), a string minimum leaves no such row with a NaN date, so skipping NaN agrees with pandas' +inf substitution |
| MentalHealth.FillAfterFirst | prepare_data/process_mental_health.py:70-74 | the fill keeps the column length |
| MentalHealth.FillAfterFirstCorrect | prepare_data/process_mental_health.py:70-74 | present cells are kept; when the dates are not a mix of strings and numbers, a missing cell dated strictly after an observed date becomes 1; a missing cell dated after no observed date stays NA |
| MentalHealth.FillColumns | prepare_data/process_mental_health.py:67-74 | the column loop keeps the column count |
| MentalHealth.FillNumericColumns | prepare_data/process_mental_health.py:67-74 | the in-place loop leaves the columns equal to the specification of the old ones |
| MentalHealth.EmptyStrings | prepare_data/process_mental_health.py:77 | the fill column is the empty string on every row |
| MentalHealth.FillNote | prepare_data/process_mental_health.py:77 | filling `note` keeps the frame well-formed |
| MentalHealth.Arranged | prepare_data/process_mental_health.py:46-64 | a renamed, combined, pruned frame is well-formed with `date` first |
| MentalHealth.CleanMergedData | prepare_data/process_mental_health.py:44-79 | the method returns the specification's frame or error; the date comparison raises TypeError exactly when some filled column either has a string date and a NaN date among its rows with a value, or has a row with a value and a date while the dates mix strings and numbers |
| MentalHealth.ArrangedNames | prepare_data/process_mental_health.py:46-64 | the arranged frame keeps the height and every column name is snake-cased and not a helper |
| MentalHealth.ArrangedColumn | prepare_data/process_mental_health.py:46-64 | each arranged column has a clean name |
| MentalHealth.CombinedNameFrom | prepare_data/process_mental_health.py:46-50 | each column after the liberty step carries the snake case of some input column name |
| MentalHealth.CleanMergedDataShape | prepare_data/process_mental_health.py:44-79 | the cleaned frame is well-formed, keeps the height, has `date` first, only clean names, and a `note` column with no NA |
| MentalHealth.CleanMissingPositive | prepare_data/process_mental_health.py:49 | without `positive_liberty` cleaning raises KeyError for it |
| MentalHealth.CleanMissingNegative | prepare_data/process_mental_health.py:49 | with `positive_liberty` but without `negative_liberty` cleaning raises KeyError for the latter |
| MentalHealth.CleanMergedDataErrors | prepare_data/process_mental_health.py:44-79 | cleaning fails only with one of the seven KeyError or TypeError cases the code can raise |
| MentalHealth.ApplyPhrase | prepare_data/process_mental_health.py:182 | one phrase's override keeps the column length |
| MentalHealth.ApplyPhrases | prepare_data/process_mental_health.py:181-182 | the phrase loop keeps the column length |
| MentalHealth.LastMatch | prepare_data/process_mental_health.py:181-182 | the last phrase contained in a note, or none when no phrase is |
| MentalHealth.ApplyPhrasesLastWins | prepare_data/process_mental_health.py:181-182 | a row's `elevated` is the score of the last phrase its note contains, or is unchanged when none is |
| MentalHealth.OverrideElevated | prepare_data/process_mental_health.py:181-182 | the in-place loop over `.loc[..., "elevated"] = score` leaves the column equal to applying all phrases in order |
| MentalHealth.WithElevated | prepare_data/process_mental_health.py:182 | assigning to `elevated` creates the column when missing and keeps the frame well-formed |
| MentalHealth.AddScoresToExceptionalDays | prepare_data/process_mental_health.py:81-184 | the method applies the 95 exceptional-day phrases |
| MentalHealth.AddScores | prepare_data/process_mental_health.py:181-184 | the loop returns the specification's frame for any phrase list |
| MentalHealth.AddScoresCorrect | prepare_data/process_mental_health.py:81-184 | with a `note` column, each row's `elevated` is the last matching phrase's score, or its old value when no phrase matches |
| MentalHealth.SelectColumns | prepare_data/process_mental_health.py:466 | `data[names]` returns, in order, the first column of each requested name |
| MentalHealth.SelectColumnsOutcome | prepare_data/process_mental_health.py:466 | selection succeeds iff every name is present, otherwise it is a KeyError naming the first missing one |
| MentalHealth.Melt | prepare_data/process_mental_health.py:421-436 | `melt` has one row per value column and input row |
| MentalHealth.MeltAt | prepare_data/process_mental_health.py:421-436 | the melted row for column i and row k carries that row's date, note, the column name and its cell |
| MentalHealth.StripPartials | prepare_data/process_mental_health.py:439 | stripping `_partial` keeps the row count |
| MentalHealth.PartialForUnique | prepare_data/process_mental_health.py:442-444 | a single matching partial row contributes its value |
| MentalHealth.PartialForNone | prepare_data/process_mental_health.py:442-444 | no matching partial row contributes nothing |
| MentalHealth.LeftMergeOneEach | prepare_data/process_mental_health.py:442-444 | when every row matches once, the left merge keeps the row order and count |
| MentalHealth.LeftMergePrefix | prepare_data/process_mental_health.py:442-444 | the same holds for every prefix of the full table |
| MentalHealth.StripMetric | prepare_data/process_mental_health.py:439 | removing `_partial` from a partial metric gives its score metric |
| MentalHealth.ReshapeColumns | prepare_data/process_mental_health.py:412-424 | the selected columns are date, note, the four scores and their partial forms |
| MentalHealth.ScoreMetricsDistinct | prepare_data/process_mental_health.py:412-417 | the four score names are distinct |
| MentalHealth.MeltIsMeltOf | prepare_data/process_mental_health.py:421-436 | `melt` produces the column-major layout |
| MentalHealth.LeftMergeAligned | prepare_data/process_mental_health.py:442-444 | aligned, key-unique tables merge row by row |
| MentalHealth.MeltKeysDistinct | prepare_data/process_mental_health.py:421-427 | with distinct (date, note) rows and distinct metric columns the melted keys are unique |
| MentalHealth.TidyTable | prepare_data/process_mental_health.py:421-444 | the tidy merge pairs each full row with the partial value of the same row |
| MentalHealth.StripAligned | prepare_data/process_mental_health.py:430-439 | after stripping, the partial table is key-aligned with the full table |
| MentalHealth.ReshapeCorrect | prepare_data/process_mental_health.py:401-446 | with distinct (date, note) rows the tidy table has 4 × height rows; row q is metric q / height of input row q % height, with its value and partial value |
| MentalHealth.TidyFromSelected | prepare_data/process_mental_health.py:421-444 | the same layout stated on the selected columns |
| MentalHealth.TidyOfSelected | prepare_data/process_mental_health.py:421-444 | the merge of the two melts of the selected columns has 4 × height rows in that layout |
| MentalHealth.SelectedTidyInputs | prepare_data/process_mental_health.py:412-418 | the selected columns have the frame's height and the score names in order |
| MentalHealth.ReshapeSpecIs | prepare_data/process_mental_health.py:421-444 | the reshape is the left merge of the full melt with the stripped partial melt |
| MentalHealth.ReshapeErrors | prepare_data/process_mental_health.py:421-436 | reshaping fails iff one of the ten columns is missing, with a KeyError naming the first |
| MentalHealth.OffsetGoals | prepare_data/process_mental_health.py:467-468 | the in-place loop keeps the date column and subtracts one from every other column |
| MentalHealth.GoalData | prepare_data/process_mental_health.py:459-469 | the method returns the specification's frame or error |
| MentalHealth.OffsetGoalsResult | prepare_data/process_mental_health.py:467-468 | the loop's result is the date column followed by the offset columns |
| MentalHealth.WrangleNonExerciseGoalData | prepare_data/process_mental_health.py:456-469 | the goal table is the cleaned frame's goal data, or the cleaning error |
| MentalHealth.GoalDataCorrect | prepare_data/process_mental_health.py:459-469 | on success the five goal columns exist, the result has exactly them with the height kept and date unchanged, and each other cell is the source minus one (NaN staying NaN) |
| MentalHealth.GoalDataColumns | prepare_data/process_mental_health.py:459-466 | on success the result has exactly the five goal columns with date unchanged |
| MentalHealth.GoalDataCell | prepare_data/process_mental_health.py:467-468 | each goal cell is its source minus one, NaN staying NaN |
| MentalHealth.OffsetCell | prepare_data/process_mental_health.py:468 | subtracting 1.0 from a numeric column maps each number to itself minus one and keeps NaN |
| MentalHealth.GoalDataShape | prepare_data/process_mental_health.py:459-469 | a successful goal table is the selected date column and the offset numeric columns |
| MentalHealth.GoalDataErrors | prepare_data/process_mental_health.py:459-469 | a KeyError happens iff a goal column is missing and names the first one; a TypeError happens iff all exist but one is not numeric |
| Scoring.FactorColumns | prepare_data/process_mental_health.py:234 | `data[[var for var in vars_info]]` gives one column per factor, or KeyError for the first missing one |
| Scoring.Available | prepare_data/process_mental_health.py:234 | the count of present factors never exceeds the number counted |
| Scoring.ExclusionMask | prepare_data/process_mental_health.py:219-231 | a row is valid iff its date lies in none of the exclusion ranges |
| Scoring.FactorSums | prepare_data/process_mental_health.py:273-287 | each row's sum adds up the weighted transforms of its present factors |
| Scoring.PossibleExtremes | prepare_data/process_mental_health.py:291-309 | the loop computes the minimum and maximum possible score sums |
| Scoring.CalculateScore | prepare_data/process_mental_health.py:196-327 | the method returns the specification's scores, in which a date exclusion has no effect |
| Scoring.ScoreNaNIff | prepare_data/process_mental_health.py:263-319 | invalid rows score NaN; valid rows score a finite number when the range is not degenerate, and the raw sum when not rescaling |
| Scoring.UniformRowIsNaN | prepare_data/process_mental_health.py:240-271 | a row with main symptoms all 0 and other factors all 1 scores NaN |
| Scoring.AvailableAll | prepare_data/process_mental_health.py:234 | with all factors present the count is the number of factors |
| Scoring.FullRowValid | prepare_data/process_mental_health.py:269-271 | a complete, non-uniform row passes any cutoff of at most 1 |
| Scoring.MissingAddsNothing | prepare_data/process_mental_health.py:280-287 | missing factors add nothing to the sum (NaN filled with 0) |
| Scoring.ContributionBounds | prepare_data/process_mental_health.py:292-307 | for a monotone transform, an in-range value's weighted term lies between the factor's minimum and maximum term |
| Scoring.ScoreSumBounds | prepare_data/process_mental_health.py:285-309 | a complete in-range row's sum lies between the minimum and maximum possible scores |
| Scoring.RescaleEndpoints | prepare_data/process_mental_health.py:312-314 | rescaling maps the minimum possible score to -100 and the maximum to 100 |
| Scoring.RescaleMonotone | prepare_data/process_mental_health.py:312-314 | rescaling preserves order |
| Scoring.ScoreInRange | prepare_data/process_mental_health.py:289-319 | a valid, complete, in-range row with monotone transforms scores finite and within [-100, 100] |
| Scoring.ScoreExcludingSpec | prepare_data/process_mental_health.py:219-231 | the intended scores: rows inside an exclusion range are NaN, the others keep their score |
| Scoring.CalculateScoreExcluding | prepare_data/process_mental_health.py:219-327 | the corrected method returns those intended scores |
| Scoring.ExcludedRowsAreNaN | prepare_data/process_mental_health.py:222-231 | in the intended scores any row dated inside an exclusion range is NaN |
| Scoring.ExclusionIgnored | prepare_data/process_mental_health.py:269-271 | a row inside an exclusion range still gets a finite score as written, but NaN as intended |
| Classify.Present | prepare_data/classify_exercises.py:143 | `mode()` ignores NaN: the present values are exactly the non-NaN cells |
| Classify.Dedup | prepare_data/classify_exercises.py:143 | the candidate values are exactly the present values, without repeats |
| Classify.MaxCount | prepare_data/classify_exercises.py:143 | the highest count bounds every candidate's count and is attained |
| Classify.WithCount | prepare_data/classify_exercises.py:143 | the values with a given count are exactly those candidates, without repeats |
| Classify.MajorityOrUnclearCorrect | prepare_data/classify_exercises.py:139-144 | a strict mode wins the vote; any answer other than `Unclear` is the strict mode |
| Classify.StrictModeWins | prepare_data/classify_exercises.py:139-144 | a value occurring strictly more often than any other is returned |
| Classify.SingleModeIsStrict | prepare_data/classify_exercises.py:143-144 | a single mode occurs strictly more often than every other value |
| Classify.WithCountNone | prepare_data/classify_exercises.py:143 | no candidate with the count gives no mode |
| Classify.WithCountSingle | prepare_data/classify_exercises.py:143 | exactly one candidate with the count gives exactly that mode |
| Classify.CeilDiv | prepare_data/classify_exercises.py:100 | `ceil(n / k)` is non-negative for positive k, zero only for no names, and non-positive for negative k |
| Classify.CeilDivBounds | prepare_data/classify_exercises.py:100 | `ceil(n / k)` chunks of size k cover n names, one fewer does not |
| Classify.Prompts | prepare_data/classify_exercises.py:101-109 | the loop's prompt list has one prompt per chunk, in order |
| Classify.MakeChunkedApiCalls | prepare_data/classify_exercises.py:95-115 | the loop returns the specification's prompts or error |
| Classify.FlattenChunks | prepare_data/classify_exercises.py:103-104 | the first i chunks laid end to end are the first `min(i·k, n)` names |
| Classify.ChunksPartition | prepare_data/classify_exercises.py:100-105 | there are `ceil(n / k)` chunks, each holding 1 to k names, and together they are the names in order |
| Classify.ChunkSize | prepare_data/classify_exercises.py:103-104 | every chunk holds between 1 and k names |
| Classify.ChunkedCallsCorrect | prepare_data/classify_exercises.py:95-115 | the calls fail iff the chunk size is not positive or there are no names (empty `concat`); otherwise chunk i's exercise list is its names joined by `, ` |
| Classify.ExtractJsonUnfenced | prepare_data/classify_exercises.py:84-88 | a reply without a "```json" fence is used as is |
| Classify.ExtractJsonFenced | prepare_data/classify_exercises.py:84-88 | with a fence, the text between the first fence and the next (or the end) is stripped and has trailing backticks removed |
| Classify.FencedFirstPiece | prepare_data/classify_exercises.py:85 | the first split piece after the fence is the text up to the next fence |
| Classify.ExtractJsonShape | prepare_data/classify_exercises.py:84-88 | a fenced extraction neither starts with whitespace nor ends with a backtick |
| Classify.StripRStripShape | prepare_data/classify_exercises.py:85 | `.strip().rstrip("```")` neither starts with whitespace nor ends with a backtick |
| Classify.FlatMapAppend | prepare_data/classify_exercises.py:125 | `explode` distributes over concatenated rows |
| Classify.ExplodeOneCorrect | prepare_data/classify_exercises.py:122-127 | a NaN group list explodes to one NaN row; otherwise one row per piece of `split(", ")`, the pieces joining back to the list and none containing the separator |
| Classify.ExplodeAppend | prepare_data/classify_exercises.py:125-127 | exploding concatenated responses is concatenating their explosions |
| Classify.MatchesOfUnique | prepare_data/classify_exercises.py:128-134 | with unique muscle-group names a group matches exactly its table row, or nothing |
| Classify.LookupGroupMeaning | prepare_data/classify_exercises.py:128-134 | the lookup returns a table row with that name, or none when no row has it |
| Classify.UniqueGroupsInit | prepare_data/classify_exercises.py:128-134 | removing the last row keeps the names unique, and the last name occurs nowhere else |
| Classify.MergeGroupsUnique | prepare_data/classify_exercises.py:128-134 | with unique group names the left merge keeps every exploded row in order, each with its group's row or nothing |
| Classify.MergeOneUnique | prepare_data/classify_exercises.py:128-134 | with unique group names one exploded row merges to exactly one row |
| Classify.MatchesOfHas | prepare_data/classify_exercises.py:128-134 | a table row matches its own name |
| Classify.MergeGroupsKeeps | prepare_data/classify_exercises.py:128-134 | the left merge keeps every exploded row and pairs it with every table row of its group |
| Classify.MergeOneKeeps | prepare_data/classify_exercises.py:128-134 | one exploded row yields at least one row, first its own, paired with each matching table row |
| Classify.GroupAndAggregateCorrect | prepare_data/classify_exercises.py:146-160 | one row per exercise name occurring, in ascending name order, with the `majority_or_unclear` vote of its anterior/posterior and push/pull/legs cells |
| Classify.ExerciseNamesHas | prepare_data/classify_exercises.py:152 | the grouping keys are exactly the exercise names occurring |
| Classify.GroupNames | prepare_data/classify_exercises.py:152 | the aggregated names are exactly the sorted distinct exercise names |
| Classify.ClassCellsPerRow | prepare_data/classify_exercises.py:153-158 | both classification columns give one cell per row of the exercise, none for an absent exercise |

## Left out

- Weight.WeightSeriesMinimum: stated only for days whose BodyMass records all carry a value. On other days a cell filled by interpolation may take part in the minimum. The interpolation is a parameter, so the model cannot say what that cell is.
- pandas' linear `interpolate` in `wrangle_weight_data` is a function parameter. The only thing the model assumes about it is that present values stay as they are (`Settle`).
- The calendar fields of `process_record_data` (year, month, day, day of year): only date, weekday, hour and minute are modelled. Calendar arithmetic is not part of what this model states.
- `pd.to_numeric(..., errors="coerce")` and `pd.to_datetime` parsing: the inputs arrive already typed. An unparseable value arrives as NaN.
- `process_workouts` (process_data.py:176-201), `wrangle_nonweightlifting_data`, `clean_exercise_data`, `process_exercise_data` and `MergedDataProcessor.wrangle_volume_data`: these lie outside the modelled core. The per-workout pieces they call are modelled: `get_data_for_workout`, `get_pace_for_workout` and `convert_to_minute_proportion`.
- The per-exercise `cummax` loop at the end of `calculate_1RM` (process_data.py:408-412) is not modelled. `DataFrame.update` ignores a column the target lacks, so the loop changes nothing.
- Lower-casing is ASCII only. Python's full Unicode case mapping is not modelled.
- `\s` in `re.sub(r"\s+", "_")` matches the same characters as `str.isspace` (Python's `re` uses that test for `str` patterns). `Text.IsSpace` lists that set by hand; it is not derived from the Unicode database.
- `str.contains(note)` in `add_scores_to_exceptional_days` takes the phrase as a regular expression, and the model reads it as a substring test. Only one of the 95 phrases holds a metacharacter: the `.` in `Abba-St. Patrick's day club night` matches any character. So the model misses a note that has some other character in that position.
- `sort_values` is modelled as a stable insertion sort. pandas' default quicksort is not stable, so the order within equal keys is not modelled.
- Update in place is modelled on values wherever no caller reads the argument afterwards. Aliasing between a DataFrame and its views is not modelled, and so neither is the `SettingWithCopyWarning` behaviour.
- Duplicate column names in the diary table resolve to the first column of that name.
- Diary columns hold numbers, strings or NaN; pandas' mixed `object` dtype is reduced to a column being numeric or not. Dates compare as Python does: strings with strings, numbers with numbers. A string meeting a number raises TypeError. `min` on an object date column turns NaN into +inf first, so a string date beside a NaN date raises too. Comparing every date with a NaN minimum (a column with no dated value) raises nothing. Arithmetic on object columns follows pandas' fallback: only rows where both cells are present are added, the others become NaN. The dtype of a column after that fallback is taken from its cells. Dates of other types (timestamps, booleans) are not modelled.
- `merge_data` (process_mental_health.py:15-41) needs the clock and `pivot_table`. The cleaning step takes the merged table as its input.
- `anxiety_depression_interaction` and `calculate_mental_health_metrics` use fractional powers (`x**6.6582`) over floating point. These are not modelled. Their variable tables enter `calculate_score` as arbitrary `Factor` lists, because the transformations are parameters there.
- In `calculate_score`, a transformation that returns NaN for a present value is not modelled, and neither are the `to_datetime` conversion or the dropping of the temporary columns (they have no effect on the returned scores).
- When both `melt` calls in `reshape_to_tidy_format` would raise, the KeyError names the first missing column of the ten. pandas names the first missing column of the first `melt`.
- The language-model calls, the prompt template and the `json.loads` parse (with its `JSONDecodeError` path) are not modelled. The chunk loop records, as the model's output, the exercise list that the prompt of each chunk receives.
- The last merge of `classify()`, its CSV write, and the module-level script at the end of classify_exercises.py (reading the API key, the muscle-group table) are I/O.
- Exercise names in `group_and_aggregate` are strings. NaN names, which `groupby` drops, are not modelled.
- `fill_missing_dates` is modelled with `date_column` left at its default `"date"` and with one value column.
- `ceil(len / chunk_size)` is exact integer arithmetic. float rounding for very large inputs is not modelled.
- `PerformCalculations.wrangle_nutrition_data`, `wrangle_energy_data`, `calculate_1RM`, `wrangle_volume_data` and `perform_all_calculations` are stubs that return `None`. There is nothing in them to model.
- `join_dates` ignores its `energy_metrics`/`nutrition_metrics`/`volume_metrics` arguments: lines 84-95 overwrite them. So the model takes only the metric type.

## Findings

| source | as written | input that shows it | evidently intended | confidence | as-written member | corrected member |
|---|---|---|---|---|---|---|
| prepare_data/perform_calculations.py:82 | `PerformCalculations.wrangle_weight_data` calls `hdp.clean_health_data`, which `HealthDataProcessor` does not define | any weight table: the call raises AttributeError before any row is read | clean the records with `process_record_data`, then run the forward-filled weight series | not executed | Weight.PerformWrangleWeightDataAlwaysFails | Weight.PerformWrangleWeightDataCorrect |
| prepare_data/process_mental_health.py:269 | the date-exclusion mask built on lines 222-231 is overwritten by the cutoff-and-uniform mask, so excluded dates still get scores | one row dated inside `(0, 10)`, factor `energy` with value 2.0, cutoff 1, no rescaling: scored 2.0 | rows inside an exclusion range score NaN (`valid_rows &=` with the cutoff mask) | not executed | Scoring.ExclusionIgnored | Scoring.ExcludedRowsAreNaN |
