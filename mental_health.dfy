/** The merged mood-tracker table of `MentalHealthDataProcessor` and the
    steps that clean, annotate, reshape and offset it.

    A table is a sequence of named columns of cells; a cell is NaN, a number
    or a string.  pandas gives a column holding no string a numeric dtype,
    which is what `select_dtypes(include=[np.number])` picks. */
module MentalHealth {
  import opened Common
  import opened Order
  import opened Text

  datatype Cell = Missing | Num(x: real) | Str(s: string)

  datatype Column = Column(name: string, cells: seq<Cell>)

  /** A table of `height` rows. */
  datatype Frame = Frame(height: nat, columns: seq<Column>)

  /** Every column has one cell per row. */
  predicate Valid(f: Frame)
  {
    forall i :: 0 <= i < |f.columns| ==> |f.columns[i].cells| == f.height
  }

  predicate Numeric(c: Column)
  {
    forall k :: 0 <= k < |c.cells| ==> !c.cells[k].Str?
  }

  function ColumnNames(cols: seq<Column>): seq<string>
  {
    seq(|cols|, i requires 0 <= i < |cols| => cols[i].name)
  }

  /** Position of the first column called `name` at or after `k`. */
  function IndexFrom(cols: seq<Column>, name: string, k: nat): (r: Option<nat>)
    requires k <= |cols|
    ensures r.Some? ==> k <= r.value < |cols| && cols[r.value].name == name
    ensures r.Some? ==> forall j :: k <= j < r.value ==> cols[j].name != name
    ensures r.None? ==> forall j :: k <= j < |cols| ==> cols[j].name != name
    decreases |cols| - k
  {
    if k == |cols| then None
    else if cols[k].name == name then Some(k)
    else IndexFrom(cols, name, k + 1)
  }

  /** `df[name]`: the first column with that name. */
  function IndexOf(cols: seq<Column>, name: string): Option<nat>
  {
    IndexFrom(cols, name, 0)
  }

  /** `df[name]` finds a column exactly when some column has that name. */
  lemma {:induction false} IndexOfIff(cols: seq<Column>, name: string)
    ensures IndexOf(cols, name).Some? <==> name in ColumnNames(cols)
  {
    var r := IndexOf(cols, name);
    if r.Some? {
      assert ColumnNames(cols)[r.value] == name;
    } else {
      forall j | 0 <= j < |cols| ensures ColumnNames(cols)[j] != name {
      }
    }
  }

  // ---------------------------------------------------------------------
  // clean_merged_data
  // ---------------------------------------------------------------------

  /** `re.sub(r"\s+", "_", col).lower()`. */
  function SnakeCase(c: string): string
  {
    Lower(CollapseSpaceRuns(c))
  }

  lemma {:induction false} LowerAppend(x: string, y: string)
    ensures Lower(x + y) == Lower(x) + Lower(y)
  {
  }

  /** A snake-cased name has no whitespace, snake-casing it again changes
      nothing, and a name without whitespace is only lower-cased. */
  lemma {:induction false} SnakeCaseProperties(c: string)
    ensures SpaceFree(SnakeCase(c))
    ensures SnakeCase(SnakeCase(c)) == SnakeCase(c)
    ensures SpaceFree(c) ==> SnakeCase(c) == Lower(c)
  {
    CollapseSpaceFree(c);
    var t := CollapseSpaceRuns(c);
    LowerFacts(t);
    CollapseIdentity(Lower(t));
    LowerFacts(Lower(t));
    if SpaceFree(c) {
      CollapseIdentity(c);
    }
  }

  /** A leading run of whitespace becomes one underscore. */
  lemma {:induction false} SnakeCaseLeadingRun(w: string, b: string)
    requires w != [] && forall i :: 0 <= i < |w| ==> IsSpace(w[i])
    requires b == [] || !IsSpace(b[0])
    ensures SnakeCase(w + b) == "_" + SnakeCase(b)
  {
    CollapseLeadingRun(w, b);
    LowerAppend("_", CollapseSpaceRuns(b));
    assert Lower("_") == "_";
  }

  /** Each later maximal run of whitespace becomes exactly one underscore. */
  lemma {:induction false} SnakeCaseRun(a: string, w: string, b: string)
    requires w != [] && forall i :: 0 <= i < |w| ==> IsSpace(w[i])
    requires a != [] && !IsSpace(a[|a| - 1])
    requires b == [] || !IsSpace(b[0])
    ensures SnakeCase(a + w + b) == SnakeCase(a) + "_" + SnakeCase(b)
  {
    CollapseRun(a, w, b);
    var ca, cb := CollapseSpaceRuns(a), CollapseSpaceRuns(b);
    var cu := ca + "_";
    LowerAppend(cu, cb);
    LowerAppend(ca, "_");
    assert Lower("_") == "_";
  }

  function RenameColumns(cols: seq<Column>): (r: seq<Column>)
    ensures |r| == |cols|
  {
    seq(|cols|, i requires 0 <= i < |cols| => Column(SnakeCase(cols[i].name), cols[i].cells))
  }

  /** `(positive + negative) / 2` on one row; NaN if either is NaN. */
  function MeanCell(a: Cell, b: Cell): Cell
  {
    if a.Num? && b.Num? then Num((a.x + b.x) / 2.0) else Missing
  }

  /** `cells.fillna(fill)`: each NaN takes the cell of `fill` in its row. */
  function FillNa(cells: seq<Cell>, fill: seq<Cell>): (r: seq<Cell>)
    requires |fill| == |cells|
    ensures |r| == |cells|
  {
    seq(|cells|, k requires 0 <= k < |cells| => if cells[k].Missing? then fill[k] else cells[k])
  }

  function MeanCells(p: seq<Cell>, n: seq<Cell>): (r: seq<Cell>)
    requires |p| == |n|
    ensures |r| == |p|
  {
    seq(|p|, k requires 0 <= k < |p| => MeanCell(p[k], n[k]))
  }

  /** The sum of line 49 raises on some row: pandas adds object columns
      only on the rows where both cells are present (NaN elsewhere), so a
      string there either meets a number in `+` or, added to a string,
      meets the `/ 2`. */
  predicate LibertySumFails(p: seq<Cell>, n: seq<Cell>)
    requires |p| == |n|
  {
    exists k :: 0 <= k < |p| && p[k] != Missing && n[k] != Missing && (p[k].Str? || n[k].Str?)
  }

  /** Lines 49-50: a missing `liberty` takes the mean of `positive_liberty`
      and `negative_liberty`. */
  function CombineLiberty(f: Frame): (r: Result<Frame>)
    requires Valid(f)
    ensures r.Ok? ==> Valid(r.value) && r.value.height == f.height
    ensures r.Ok? ==> ColumnNames(r.value.columns) == ColumnNames(f.columns)
  {
    match IndexOf(f.columns, "positive_liberty")
    case None => Err(KeyError("positive_liberty"))
    case Some(pi) =>
      match IndexOf(f.columns, "negative_liberty")
      case None => Err(KeyError("negative_liberty"))
      case Some(ni) =>
        if LibertySumFails(f.columns[pi].cells, f.columns[ni].cells) then Err(TypeError("liberty sum"))
        else
          match IndexOf(f.columns, "liberty")
          case None => Err(KeyError("liberty"))
          case Some(li) =>
            var combined := MeanCells(f.columns[pi].cells, f.columns[ni].cells);
            Ok(Frame(f.height, f.columns[li := Column("liberty", FillNa(f.columns[li].cells, combined))]))
  }

  /** A present `liberty` is unchanged, a missing one becomes the mean of
      the two parts, and every other column is left as it was. */
  lemma {:induction false} CombineLibertyCorrect(f: Frame, g: Frame)
    requires Valid(f) && CombineLiberty(f) == Ok(g)
    ensures IndexOf(f.columns, "liberty").Some?
    ensures var li := IndexOf(f.columns, "liberty").value;
      var pi := IndexOf(f.columns, "positive_liberty").value;
      var ni := IndexOf(f.columns, "negative_liberty").value;
      && pi < |f.columns| && ni < |f.columns|
      && (forall k :: 0 <= k < f.height && f.columns[li].cells[k] != Missing ==>
            g.columns[li].cells[k] == f.columns[li].cells[k])
      && (forall k :: 0 <= k < f.height && f.columns[li].cells[k] == Missing ==>
            g.columns[li].cells[k] == MeanCell(f.columns[pi].cells[k], f.columns[ni].cells[k]))
      && (forall i :: 0 <= i < |f.columns| && i != li ==> g.columns[i] == f.columns[i])
  {
  }

  /** The liberty step fails exactly when one of its three columns is
      missing or the sum meets a string on a row where both parts are
      present; a string whose partner is NaN gives a NaN mean. */
  lemma {:induction false} CombineLibertyOutcome(f: Frame)
    requires Valid(f)
    ensures CombineLiberty(f).Ok? <==>
      && IndexOf(f.columns, "positive_liberty").Some?
      && IndexOf(f.columns, "negative_liberty").Some?
      && IndexOf(f.columns, "liberty").Some?
      && !LibertySumFails(f.columns[IndexOf(f.columns, "positive_liberty").value].cells,
                          f.columns[IndexOf(f.columns, "negative_liberty").value].cells)
    ensures
      (CombineLiberty(f).Err? && IndexOf(f.columns, "positive_liberty").Some? &&
       IndexOf(f.columns, "negative_liberty").Some? && IndexOf(f.columns, "liberty").Some?)
      ==> CombineLiberty(f) == Err(TypeError("liberty sum"))
  {
  }

  /** Columns `clean_merged_data` removes when present. */
  const HelperColumns: seq<string> :=
    ["id", "date_(yyyy-mm-dd)", "positive_liberty", "negative_liberty", "combined_liberty"]

  /** `df.drop(columns=HelperColumns, errors="ignore")`. */
  function DropHelpers(cols: seq<Column>): (r: seq<Column>)
    ensures |r| <= |cols|
  {
    if cols == [] then []
    else
      DropHelpers(cols[..|cols| - 1])
      + (if cols[|cols| - 1].name in HelperColumns then [] else [cols[|cols| - 1]])
  }

  /** Exactly the columns not named in the list survive. */
  lemma {:induction false} DropHelpersMembers(cols: seq<Column>, c: Column)
    ensures c in DropHelpers(cols) <==> c in cols && c.name !in HelperColumns
  {
    if cols != [] {
      DropHelpersMembers(cols[..|cols| - 1], c);
      assert cols == cols[..|cols| - 1] + [cols[|cols| - 1]];
    }
  }

  lemma {:induction false} DropHelpersValid(f: Frame)
    requires Valid(f)
    ensures Valid(Frame(f.height, DropHelpers(f.columns)))
  {
    var r := DropHelpers(f.columns);
    forall i | 0 <= i < |r| ensures |r[i].cells| == f.height {
      DropHelpersMembers(f.columns, r[i]);
    }
  }

  /** `df.pop("date")` followed by `df.insert(0, "date", ...)`. */
  function MoveDateFirst(f: Frame): (r: Result<Frame>)
    requires Valid(f)
    ensures r.Ok? ==> Valid(r.value) && r.value.height == f.height
    ensures r.Ok? ==> |r.value.columns| == |f.columns| > 0 && r.value.columns[0].name == "date"
    ensures r.Ok? ==> multiset(r.value.columns) == multiset(f.columns)
    ensures r.Err? <==> "date" !in ColumnNames(f.columns)
  {
    match IndexOf(f.columns, "date")
    case None =>
      assert forall j :: 0 <= j < |f.columns| ==> ColumnNames(f.columns)[j] != "date";
      Err(KeyError("date"))
    case Some(i) =>
      var cols := [f.columns[i]] + f.columns[..i] + f.columns[i + 1..];
      assert f.columns == f.columns[..i] + [f.columns[i]] + f.columns[i + 1..];
      assert ColumnNames(f.columns)[i] == "date";
      Ok(Frame(f.height, cols))
  }

  /** Python's `<` on two date cells: strings compare as strings, numbers
      as numbers.  A string and a number do not compare (Python raises
      TypeError; `MixedDates` below says when that happens). */
  predicate CellLess(a: Cell, b: Cell)
  {
    (a.Str? && b.Str? && StrLess(a.s, b.s)) || (a.Num? && b.Num? && a.x < b.x)
  }

  lemma {:induction false} CellLessIrreflexive(a: Cell)
    ensures !CellLess(a, a)
  {
    if a.Str? {
      StrLessIrreflexive(a.s);
    }
  }

  lemma {:induction false} CellLessTransitive(a: Cell, b: Cell, c: Cell)
    requires CellLess(a, b) && CellLess(b, c)
    ensures CellLess(a, c)
  {
    if a.Str? {
      StrLessTransitive(a.s, b.s, c.s);
    }
  }

  /** Two present cells of the same kind are ordered one way, or equal. */
  lemma {:induction false} CellLessTrichotomy(a: Cell, b: Cell)
    requires (a.Str? && b.Str?) || (a.Num? && b.Num?)
    ensures CellLess(a, b) || a == b || CellLess(b, a)
  {
    if a.Str? {
      StrLessTrichotomy(a.s, b.s);
    }
  }

  /** Row `k` has a date and a value in the column.  On a numeric date
      column `min` skips NaN dates; see `NaNBesideStringDate` for the
      object column. */
  ghost predicate Observed(dates: seq<Cell>, cells: seq<Cell>, k: int)
  {
    0 <= k < |dates| && k < |cells| && cells[k] != Missing && dates[k] != Missing
  }

  /** The date column holds both a string and a number. */
  predicate MixedDates(dates: seq<Cell>)
  {
    exists i, j :: 0 <= i < |dates| && 0 <= j < |dates| && dates[i].Str? && dates[j].Num?
  }

  /** On an object date column, `min` first replaces NaN by +inf.  Among
      the dates of the rows holding a value, a string beside a NaN is then
      compared with a float, which raises TypeError. */
  predicate NaNBesideStringDate(dates: seq<Cell>, cells: seq<Cell>)
    requires |dates| == |cells|
  {
    exists j, k :: 0 <= j < |cells| && 0 <= k < |cells| && cells[j] != Missing && dates[j].Str?
      && cells[k] != Missing && dates[k].Missing?
  }

  /** `df[df[col].notna()]["date"].min()` over the first `n` rows, skipping
      NaN dates. */
  function FirstObserved(dates: seq<Cell>, cells: seq<Cell>, n: nat): Option<Cell>
    requires n <= |dates| && n <= |cells|
  {
    if n == 0 then None
    else
      var f := FirstObserved(dates, cells, n - 1);
      if cells[n - 1] != Missing && dates[n - 1] != Missing && (f.None? || CellLess(dates[n - 1], f.value))
      then Some(dates[n - 1])
      else f
  }

  /** The first observation is the least date among the observed rows, and
      there is one exactly when some row is observed. */
  lemma {:induction false} FirstObservedIsLeast(dates: seq<Cell>, cells: seq<Cell>, n: nat)
    requires n <= |dates| && n <= |cells|
    ensures FirstObserved(dates, cells, n).Some? <==> exists k :: 0 <= k < n && Observed(dates, cells, k)
    ensures FirstObserved(dates, cells, n).Some? ==>
      exists k :: 0 <= k < n && Observed(dates, cells, k) && dates[k] == FirstObserved(dates, cells, n).value
    ensures FirstObserved(dates, cells, n).Some? ==>
      forall k :: 0 <= k < n && Observed(dates, cells, k) ==> !CellLess(dates[k], FirstObserved(dates, cells, n).value)
  {
    if n > 0 {
      FirstObservedIsLeast(dates, cells, n - 1);
      var f := FirstObserved(dates, cells, n - 1);
      var r := FirstObserved(dates, cells, n);
      if r.Some? {
        forall k | 0 <= k < n && Observed(dates, cells, k) ensures !CellLess(dates[k], r.value) {
          if r != f {
            CellLessIrreflexive(dates[k]);
            if k < n - 1 && CellLess(dates[k], r.value) {
              CellLessTransitive(dates[k], r.value, f.value);
            }
          }
        }
        if r != f {
          assert Observed(dates, cells, n - 1);
        }
      }
    }
  }

  /** Where `min` does not raise, skipping NaN dates agrees with pandas'
      +inf substitution: a string minimum means no row holding a value has
      a NaN date, and +inf is never below a number. */
  lemma {:induction false} FirstObservedMatchesMin(dates: seq<Cell>, cells: seq<Cell>)
    requires |dates| == |cells|
    ensures
      (!NaNBesideStringDate(dates, cells) && FirstObserved(dates, cells, |cells|).Some? &&
       FirstObserved(dates, cells, |cells|).value.Str?)
      ==> forall k :: 0 <= k < |cells| && cells[k] != Missing ==> dates[k] != Missing
  {
    FirstObservedIsLeast(dates, cells, |cells|);
  }

  /** Lines 71-74 on one column: every NaN dated strictly after the first
      observation becomes 1. */
  function FillAfterFirst(dates: seq<Cell>, cells: seq<Cell>): (r: seq<Cell>)
    requires |dates| == |cells|
    ensures |r| == |cells|
  {
    var first := FirstObserved(dates, cells, |cells|);
    seq(|cells|, k requires 0 <= k < |cells| =>
      if cells[k].Missing? && first.Some? && CellLess(first.value, dates[k])
      then Num(1.0) else cells[k])
  }

  /** Present values never change; when the dates are all of one kind, a NaN
      dated after some observed date of the column becomes 1; a NaN dated
      after no observed date stays. */
  lemma {:induction false} FillAfterFirstCorrect(dates: seq<Cell>, cells: seq<Cell>, k: nat)
    requires |dates| == |cells| && k < |cells|
    ensures cells[k] != Missing ==> FillAfterFirst(dates, cells)[k] == cells[k]
    ensures !MixedDates(dates) && cells[k] == Missing &&
      (exists j :: 0 <= j < |cells| && Observed(dates, cells, j) && CellLess(dates[j], dates[k]))
      ==> FillAfterFirst(dates, cells)[k] == Num(1.0)
    ensures cells[k] == Missing &&
      !(exists j :: 0 <= j < |cells| && Observed(dates, cells, j) && CellLess(dates[j], dates[k]))
      ==> FillAfterFirst(dates, cells)[k] == Missing
  {
    FirstObservedIsLeast(dates, cells, |cells|);
    var first := FirstObserved(dates, cells, |cells|);
    if cells[k] == Missing {
      if !MixedDates(dates) && exists j :: 0 <= j < |cells| && Observed(dates, cells, j) && CellLess(dates[j], dates[k]) {
        var j :| 0 <= j < |cells| && Observed(dates, cells, j) && CellLess(dates[j], dates[k]);
        var i :| 0 <= i < |cells| && Observed(dates, cells, i) && dates[i] == first.value;
        assert (dates[j].Str? && dates[i].Str?) || (dates[j].Num? && dates[i].Num?);
        CellLessTrichotomy(dates[j], first.value);
        if CellLess(first.value, dates[j]) {
          CellLessTransitive(first.value, dates[j], dates[k]);
        }
      } else if first.Some? {
        var j :| 0 <= j < |cells| && Observed(dates, cells, j) && dates[j] == first.value;
      }
    }
  }

  /** `numeric_columns`: numeric dtype, and not the date. */
  predicate IsFillTarget(c: Column)
  {
    c.name != "date" && Numeric(c)
  }

  /** Every column after the fill loop; column 0 holds the dates. */
  function FillColumns(cols: seq<Column>): (r: seq<Column>)
    requires |cols| > 0 && forall i :: 0 <= i < |cols| ==> |cols[i].cells| == |cols[0].cells|
    ensures |r| == |cols|
  {
    seq(|cols|, i requires 0 <= i < |cols| =>
      if IsFillTarget(cols[i]) then Column(cols[i].name, FillAfterFirst(cols[0].cells, cols[i].cells))
      else cols[i])
  }

  /** The loop of lines 70-74, column by column, over the table's columns. */
  method FillNumericColumns(cols: array<Column>)
    requires cols.Length > 0 && cols[0].name == "date"
    requires forall i :: 0 <= i < cols.Length ==> |cols[i].cells| == |cols[0].cells|
    modifies cols
    ensures cols[..] == FillColumns(old(cols[..]))
  {
    ghost var orig := cols[..];
    for i := 0 to cols.Length
      invariant cols[0] == orig[0]
      invariant forall j :: 0 <= j < i ==> cols[j] == FillColumns(orig)[j]
      invariant forall j :: i <= j < cols.Length ==> cols[j] == orig[j]
    {
      var c := cols[i];
      if c.name != "date" && forall k :: 0 <= k < |c.cells| ==> !c.cells[k].Str? {
        cols[i] := Column(c.name, FillAfterFirst(cols[0].cells, c.cells));
      }
    }
  }

  /** A column the loop of lines 70-74 fills makes the date comparisons
      raise.  Either its `min` meets a string beside a NaN date, or it has an
      observed row, so the loop compares dates -- `min` over that column's
      observed dates, then `df["date"] > first_non_na_date` over every
      date -- and a string and a number among the dates meet in one of
      these. */
  predicate DateComparisonFails(cols: seq<Column>)
    requires |cols| > 0 && forall i :: 0 <= i < |cols| ==> |cols[i].cells| == |cols[0].cells|
  {
    exists i :: 0 <= i < |cols| && IsFillTarget(cols[i]) &&
      (|| NaNBesideStringDate(cols[0].cells, cols[i].cells)
       || (MixedDates(cols[0].cells) &&
           exists k :: 0 <= k < |cols[0].cells| && cols[i].cells[k] != Missing && cols[0].cells[k] != Missing))
  }

  function EmptyStrings(n: nat): (r: seq<Cell>)
    ensures |r| == n && forall k :: 0 <= k < n ==> r[k] == Str("")
  {
    seq(n, k => Str(""))
  }

  /** `df["note"] = df["note"].fillna("")`. */
  function FillNote(f: Frame): (r: Result<Frame>)
    requires Valid(f)
    ensures r.Ok? ==> Valid(r.value)
  {
    match IndexOf(f.columns, "note")
    case None => Err(KeyError("note"))
    case Some(i) =>
      Ok(Frame(f.height, f.columns[i := Column("note", FillNa(f.columns[i].cells, EmptyStrings(f.height)))]))
  }

  /** The table after renaming, the liberty fallback, the drop and the move
      of `date` to the front. */
  function Arranged(df: Frame): (r: Result<Frame>)
    requires Valid(df)
    ensures r.Ok? ==> Valid(r.value) && |r.value.columns| > 0 && r.value.columns[0].name == "date"
  {
    var renamed := Frame(df.height, RenameColumns(df.columns));
    match CombineLiberty(renamed)
    case Err(e) => Err(e)
    case Ok(g) =>
      DropHelpersValid(g);
      MoveDateFirst(Frame(g.height, DropHelpers(g.columns)))
  }

  function CleanMergedDataSpec(df: Frame): (r: Result<Frame>)
    requires Valid(df)
  {
    match Arranged(df)
    case Err(e) => Err(e)
    case Ok(h) =>
      if DateComparisonFails(h.columns) then Err(TypeError("date comparison"))
      else FillNote(Frame(h.height, FillColumns(h.columns)))
  }

  /** `clean_merged_data`. */
  method CleanMergedData(df: Frame) returns (r: Result<Frame>)
    requires Valid(df)
    ensures r == CleanMergedDataSpec(df)
  {
    var arranged := Arranged(df);
    if arranged.Err? {
      return Err(arranged.error);
    }
    var h := arranged.value;
    if DateComparisonFails(h.columns) {
      return Err(TypeError("date comparison"));
    }
    var cols := new Column[|h.columns|](i requires 0 <= i < |h.columns| => h.columns[i]);
    assert cols[..] == h.columns;
    FillNumericColumns(cols);
    r := FillNote(Frame(h.height, cols[..]));
  }

  /** A cleaned column name: snake-cased and not one of the dropped helpers. */
  predicate CleanName(n: string)
  {
    SpaceFree(n) && n !in HelperColumns
  }

  lemma {:induction false} ArrangedNames(df: Frame, h: Frame)
    requires Valid(df) && Arranged(df) == Ok(h)
    ensures h.height == df.height
    ensures forall i :: 0 <= i < |h.columns| ==> CleanName(h.columns[i].name)
  {
    forall i | 0 <= i < |h.columns| ensures CleanName(h.columns[i].name) {
      ArrangedColumn(df, h, h.columns[i]);
    }
  }

  /** Each arranged column is a renamed, non-helper column. */
  lemma {:induction false} ArrangedColumn(df: Frame, h: Frame, c: Column)
    requires Valid(df) && Arranged(df) == Ok(h) && c in h.columns
    ensures CleanName(c.name)
  {
    var renamed := Frame(df.height, RenameColumns(df.columns));
    var g := CombineLiberty(renamed).value;
    assert c in multiset(DropHelpers(g.columns));
    DropHelpersMembers(g.columns, c);
    CombinedNameFrom(df, g, c);
    var j :| 0 <= j < |df.columns| && c.name == SnakeCase(df.columns[j].name);
    SnakeCaseProperties(df.columns[j].name);
  }

  /** A column after combining the liberty scores carries the snake-cased
      name of an input column. */
  lemma {:induction false} CombinedNameFrom(df: Frame, g: Frame, c: Column)
    requires Valid(df) && CombineLiberty(Frame(df.height, RenameColumns(df.columns))) == Ok(g)
    requires c in g.columns
    ensures exists j :: 0 <= j < |df.columns| && c.name == SnakeCase(df.columns[j].name)
  {
    var names := ColumnNames(RenameColumns(df.columns));
    assert ColumnNames(g.columns) == names;
    var j :| 0 <= j < |g.columns| && g.columns[j] == c;
    assert ColumnNames(g.columns)[j] == c.name;
    assert names[j] == SnakeCase(df.columns[j].name);
  }

  /** The cleaned table keeps every row, starts with `date`, holds no helper
      column, has only snake-cased names, and its `note` column has no NaN. */
  lemma {:induction false} CleanMergedDataShape(df: Frame, out: Frame)
    requires Valid(df) && CleanMergedDataSpec(df) == Ok(out)
    ensures Valid(out) && out.height == df.height
    ensures |out.columns| > 0 && out.columns[0].name == "date"
    ensures forall i :: 0 <= i < |out.columns| ==> CleanName(out.columns[i].name)
    ensures IndexOf(out.columns, "note").Some?
    ensures forall k :: 0 <= k < out.height ==> out.columns[IndexOf(out.columns, "note").value].cells[k] != Missing
  {
    var h := Arranged(df).value;
    ArrangedNames(df, h);
    var filled := FillColumns(h.columns);
    var ni := IndexOf(filled, "note").value;
    assert ColumnNames(out.columns) == ColumnNames(filled);
    assert forall j :: 0 <= j < |filled| ==> out.columns[j].name == filled[j].name;
  }

  /** Without a `positive_liberty` column the cleaning raises KeyError. */
  lemma {:induction false} CleanMissingPositive(df: Frame)
    requires Valid(df) && "positive_liberty" !in ColumnNames(RenameColumns(df.columns))
    ensures CleanMergedDataSpec(df) == Err(KeyError("positive_liberty"))
  {
    IndexOfIff(RenameColumns(df.columns), "positive_liberty");
  }

  /** Without a `negative_liberty` column the cleaning raises KeyError. */
  lemma {:induction false} CleanMissingNegative(df: Frame)
    requires Valid(df)
    requires "positive_liberty" in ColumnNames(RenameColumns(df.columns))
    requires "negative_liberty" !in ColumnNames(RenameColumns(df.columns))
    ensures CleanMergedDataSpec(df) == Err(KeyError("negative_liberty"))
  {
    IndexOfIff(RenameColumns(df.columns), "positive_liberty");
    IndexOfIff(RenameColumns(df.columns), "negative_liberty");
    var cols := RenameColumns(df.columns);
    var pi :| 0 <= pi < |cols| && ColumnNames(cols)[pi] == "positive_liberty";
    assert cols[pi].name == "positive_liberty";
  }

  const CleanErrors: set<Error> := {
    KeyError("positive_liberty"), KeyError("negative_liberty"), TypeError("liberty sum"),
    KeyError("liberty"), KeyError("date"), TypeError("date comparison"), KeyError("note")
  }

  /** The cleaning raises nothing but these. */
  lemma {:induction false} CleanMergedDataErrors(df: Frame)
    requires Valid(df) && CleanMergedDataSpec(df).Err?
    ensures CleanMergedDataSpec(df).error in CleanErrors
  {
  }

  // ---------------------------------------------------------------------
  // add_scores_to_exceptional_days
  // ---------------------------------------------------------------------

  /** The note phrases and the `elevated` score each one sets, in order. */
  const ExceptionalDays: seq<(string, real)> := [
    ("private tour of Aruba\U{2019}s national park", 4.5),
    ("performed Part of Your World", 5.0),
    ("Day after Duelling Pianos", 4.0),
    ("magical island off of Vieques", 5.0),
    ("jam session at Linden", 4.5),
    ("hotel Halloween party", 5.0),
    ("Won FTX fellowship", 4.0),
    ("Did well in important exam", 4.5),
    ("art gallery rationalist party", 4.0),
    ("last full day in nyc", 4.5),
    ("Received great grades", 4.0),
    ("first day living in Nassau", 5.0),
    ("day two in the Bahamas", 4.0),
    ("Met up with FTX staff", 4.0),
    ("big welcome dinner for FTX fellows", 4.0),
    ("going to war with FTX fellows", 4.0),
    ("amazing opportunity in the Bahamas", 4.0),
    ("opulent party", 4.0),
    ("blissful meditation experience", 4.5),
    ("Received great professional offer", 4.0),
    ("workday; EA dinner", 4.0),
    ("Excursion to the Exumas", 4.5),
    ("Miti's dream job offer", 4.5),
    ("excited for Miti", 4.0),
    ("Back in Nassau", 4.0),
    ("Atlantis water park", 4.5),
    ("Relaxing day with Miti", 4.0),
    ("Miti's fancy birthday dinner", 4.5),
    ("Dinner with Ben, Aria", 4.0),
    ("Misha and Joel's", 4.0),
    ("call with immigration lawyer", 4.0),
    ("excited for conferences", 4.0),
    ("seeing Greta", 4.5),
    ("friends back-to-back, through EAGxBoston", 4.5),
    ("First full day of EAGx", 4.5),
    ("Last day of EAGxBoston", 4.5),
    ("job contract meeting", 4.0),
    ("Booba and Miti", 4.5),
    ("Walk around Kenwood", 4.5),
    ("First day of EAG London", 4.0),
    ("Second day of EAG London", 4.0),
    ("FTX agree to guarantee", 4.0),
    ("Day after great immigration news", 4.5),
    ("coffee tasting in art gallery", 4.0),
    ("singalong with Chi", 4.0),
    ("Mum's arrival in Nassau", 4.0),
    ("Russian table songs with iulia", 4.5),
    ("lunch with Mum and Miti on Paradise Island", 4.5),
    ("Breakfast with iulya", 5.0),
    ("albeit with a very painful shoulder", 4.0),
    ("Given responsibility to run Wytham event", 4.0),
    ("Met my new puppy", 4.5),
    ("Bonding with Anemone", 4.5),
    ("getting over angst around normative uncertainty", 4.5),
    ("27th birthday", 4.0),
    ("arriving in SF for Constellation", 4.0),
    ("start in-person work on SHELTER Weekend", 4.0),
    ("welcoming participants to SHELTER Weekend", 4.5),
    ("First full day of SHELTER Weekend", 4.5),
    ("Meet up with London-based friends", 4.0),
    ("FTX bonus announcement", 4.0),
    ("Sending Misha off", 4.0),
    ("First full day in Boston", 4.0),
    ("Returning to Getaway cabins", 4.0),
    ("Leaving Getaway cabins", 4.5),
    ("renewed creativity and tolerance", 4.0),
    ("first solo thinking trip", 4.5),
    ("experiencing long-kindness glow on top of the lake", 4.5),
    ("Alexey, Linch, Basil, Sam, Greta, and Eric", 4.5),
    ("Cedar point with Miti", 4.0),
    ("Reminded of how great I feel", 4.0),
    ("Clarifying chat with Alexey", 4.0),
    ("coffee, lunch, heat, cold, and dinner with Misha", 4.0),
    ("AI concerns started to click intuitively", 4.0),
    ("Last day in Prague", 4.5),
    ("Beautiful trip with Miti", 4.0),
    ("wrote nice new years messages", 4.0),
    ("Job offer from CAIS", 4.5),
    ("tacos with EA NYC friends, Harry, and Sophie", 4.0),
    ("Exploring Roma Norte and Ian's food suggestions", 4.0),
    ("First day at CAIS", 4.0),
    ("Feeling grateful for my recent luck", 4.0),
    ("Abba-St. Patrick's day club night", 4.0),
    ("Happy with green card", 4.5),
    ("Enjoying beautiful CDMX", 4.0),
    ("exploring Paris for hours", 4.5),
    ("party with Arden", 4.0),
    ("Harry and Sophie's wedding", 4.5),
    ("ESPR house party in north London", 4.0),
    ("pro-social start-up ideas", 4.0),
    ("energized at Ryan's disney character party", 4.5),
    ("Momentum hot tub party", 4.0),
    ("dancing at Constance", 4.5),
    ("coffee with Richard", 4.0),
    ("bizarre, hilarious, and deeply aspirational theatre", 5.0)
  ]

  /** `note.str.contains(phrase, na=False)` on one cell, read as a substring
      test; a NaN or non-string cell does not match. */
  predicate NoteMatches(note: Cell, phrase: string)
  {
    note.Str? && Contains(note.s, phrase)
  }

  /** `data.loc[mask, "elevated"] = score` for one phrase. */
  function ApplyPhrase(notes: seq<Cell>, elevated: seq<Cell>, phrase: string, score: real): (r: seq<Cell>)
    requires |notes| == |elevated|
    ensures |r| == |elevated|
  {
    seq(|elevated|, k requires 0 <= k < |elevated| =>
      if NoteMatches(notes[k], phrase) then Num(score) else elevated[k])
  }

  /** The phrases applied one after another. */
  function ApplyPhrases(notes: seq<Cell>, elevated: seq<Cell>, phrases: seq<(string, real)>): (r: seq<Cell>)
    requires |notes| == |elevated|
    ensures |r| == |elevated|
  {
    if phrases == [] then elevated
    else
      var last := phrases[|phrases| - 1];
      ApplyPhrase(notes, ApplyPhrases(notes, elevated, phrases[..|phrases| - 1]), last.0, last.1)
  }

  /** The position of the last phrase that the note contains. */
  function LastMatch(note: Cell, phrases: seq<(string, real)>): (r: Option<nat>)
    ensures r.Some? ==> r.value < |phrases| && NoteMatches(note, phrases[r.value].0)
    ensures r.Some? ==> forall j :: r.value < j < |phrases| ==> !NoteMatches(note, phrases[j].0)
    ensures r.None? ==> forall j :: 0 <= j < |phrases| ==> !NoteMatches(note, phrases[j].0)
  {
    if phrases == [] then None
    else if NoteMatches(note, phrases[|phrases| - 1].0) then Some(|phrases| - 1)
    else LastMatch(note, phrases[..|phrases| - 1])
  }

  /** A row whose note contains some phrase gets the score of the last such
      phrase in the list; a row matching none keeps its `elevated`. */
  lemma {:induction false} ApplyPhrasesLastWins(notes: seq<Cell>, elevated: seq<Cell>,
                                                phrases: seq<(string, real)>, k: nat)
    requires |notes| == |elevated| && k < |elevated|
    ensures LastMatch(notes[k], phrases).None? ==> ApplyPhrases(notes, elevated, phrases)[k] == elevated[k]
    ensures LastMatch(notes[k], phrases).Some? ==>
      ApplyPhrases(notes, elevated, phrases)[k] == Num(phrases[LastMatch(notes[k], phrases).value].1)
  {
    if phrases != [] {
      ApplyPhrasesLastWins(notes, elevated, phrases[..|phrases| - 1], k);
    }
  }

  /** The loop of lines 181-182 on the `elevated` column, over the phrase
      list `phrases` in order. */
  method OverrideElevated(notes: seq<Cell>, phrases: seq<(string, real)>, elevated: array<Cell>)
    requires |notes| == elevated.Length
    modifies elevated
    ensures elevated[..] == ApplyPhrases(notes, old(elevated[..]), phrases)
  {
    ghost var orig := elevated[..];
    for p := 0 to |phrases|
      invariant elevated[..] == ApplyPhrases(notes, orig, phrases[..p])
    {
      ghost var before := elevated[..];
      var (phrase, score) := phrases[p];
      forall k | 0 <= k < elevated.Length && NoteMatches(notes[k], phrase) {
        elevated[k] := Num(score);
      }
      assert elevated[..] == ApplyPhrase(notes, before, phrase, score);
      assert phrases[..p + 1][..p] == phrases[..p];
    }
    assert phrases[..|phrases|] == phrases;
  }

  /** The table with the `elevated` column present: `loc` creates it, all
      NaN, when it is absent. */
  function WithElevated(f: Frame): (r: Frame)
    requires Valid(f)
    ensures Valid(r) && r.height == f.height && IndexOf(r.columns, "elevated").Some?
  {
    if IndexOf(f.columns, "elevated").Some? then f
    else
      var col := Column("elevated", seq(f.height, k => Missing));
      assert IndexFrom(f.columns + [col], "elevated", |f.columns|) == Some(|f.columns|);
      IndexFromAppend(f.columns, [col], "elevated", 0);
      Frame(f.height, f.columns + [col])
  }

  lemma {:induction false} IndexFromAppend(a: seq<Column>, b: seq<Column>, name: string, k: nat)
    requires k <= |a| && IndexFrom(a, name, k).None?
    ensures IndexFrom(a + b, name, k) == IndexFrom(a + b, name, |a|)
    decreases |a| - k
  {
    if k < |a| {
      IndexFromAppend(a, b, name, k + 1);
    }
  }

  /** The table after setting `elevated` from the notes, phrase by phrase
      in the order of `phrases`. */
  function AddScoresSpec(f: Frame, phrases: seq<(string, real)>): (r: Result<Frame>)
    requires Valid(f)
  {
    match IndexOf(f.columns, "note")
    case None => Err(KeyError("note"))
    case Some(ni) =>
      if Numeric(f.columns[ni]) then Err(AttributeError("str"))
      else
        var g := WithElevated(f);
        var ei := IndexOf(g.columns, "elevated").value;
        Ok(Frame(g.height, g.columns[ei := Column("elevated",
          ApplyPhrases(f.columns[ni].cells, g.columns[ei].cells, phrases))]))
  }

  /** `add_scores_to_exceptional_days`: the `.str` accessor needs a string
      column. */
  method AddScoresToExceptionalDays(f: Frame) returns (r: Result<Frame>)
    requires Valid(f)
    ensures r == AddScoresSpec(f, ExceptionalDays)
  {
    r := AddScores(f, ExceptionalDays);
  }

  /** The body of `add_scores_to_exceptional_days` for the phrase list
      `phrases`. */
  method AddScores(f: Frame, phrases: seq<(string, real)>) returns (r: Result<Frame>)
    requires Valid(f)
    ensures r == AddScoresSpec(f, phrases)
  {
    var ni := IndexOf(f.columns, "note");
    if ni.None? {
      return Err(KeyError("note"));
    }
    var notes := f.columns[ni.value];
    if forall k :: 0 <= k < |notes.cells| ==> !notes.cells[k].Str? {
      return Err(AttributeError("str"));
    }
    var g := WithElevated(f);
    var ei := IndexOf(g.columns, "elevated").value;
    var elevated := new Cell[g.height](k requires 0 <= k < g.height => g.columns[ei].cells[k]);
    assert elevated[..] == g.columns[ei].cells;
    OverrideElevated(notes.cells, phrases, elevated);
    r := Ok(Frame(g.height, g.columns[ei := Column("elevated", elevated[..])]));
  }

  /** Scores set from notes: each row's `elevated` is the score of the last
      listed phrase its note contains, or unchanged. */
  lemma {:induction false} AddScoresCorrect(f: Frame, phrases: seq<(string, real)>, g: Frame, k: nat)
    requires Valid(f) && AddScoresSpec(f, phrases) == Ok(g) && k < f.height
    ensures IndexOf(f.columns, "note").Some?
    ensures IndexOf(g.columns, "elevated").Some?
    ensures var note := f.columns[IndexOf(f.columns, "note").value].cells[k];
      var before := WithElevated(f).columns[IndexOf(g.columns, "elevated").value].cells[k];
      var after := g.columns[IndexOf(g.columns, "elevated").value].cells[k];
      && (LastMatch(note, phrases).None? ==> after == before)
      && (LastMatch(note, phrases).Some? ==>
            after == Num(phrases[LastMatch(note, phrases).value].1))
  {
    var ni := IndexOf(f.columns, "note").value;
    var h := WithElevated(f);
    var ei := IndexOf(h.columns, "elevated").value;
    assert ColumnNames(g.columns) == ColumnNames(h.columns);
    IndexOfNames(g.columns, h.columns, "elevated");
    ApplyPhrasesLastWins(f.columns[ni].cells, h.columns[ei].cells, phrases, k);
  }

  /** Lookup by name depends only on the names. */
  lemma {:induction false} IndexOfNames(a: seq<Column>, b: seq<Column>, name: string)
    requires ColumnNames(a) == ColumnNames(b)
    ensures IndexOf(a, name) == IndexOf(b, name)
  {
    IndexFromNames(a, b, name, 0);
  }

  lemma {:induction false} IndexFromNames(a: seq<Column>, b: seq<Column>, name: string, k: nat)
    requires ColumnNames(a) == ColumnNames(b) && k <= |a|
    ensures IndexFrom(a, name, k) == IndexFrom(b, name, k)
    decreases |a| - k
  {
    assert |a| == |ColumnNames(a)|;
    if k < |a| {
      assert a[k].name == ColumnNames(a)[k] == b[k].name;
      IndexFromNames(a, b, name, k + 1);
    }
  }

  /** The columns named `names`, in that order; KeyError names the first
      one that is missing. */
  function SelectColumns(cols: seq<Column>, names: seq<string>): (r: Result<seq<Column>>)
    ensures r.Ok? ==> |r.value| == |names|
    ensures r.Ok? ==> forall i :: 0 <= i < |names| ==> r.value[i].name == names[i]
    ensures r.Ok? ==> forall i :: 0 <= i < |names| ==> r.value[i] in cols
    ensures r.Ok? ==> forall i :: 0 <= i < |names| ==>
      IndexOf(cols, names[i]).Some? && r.value[i] == cols[IndexOf(cols, names[i]).value]
  {
    if names == [] then Ok([])
    else
      match IndexOf(cols, names[0])
      case None => Err(KeyError(names[0]))
      case Some(i) =>
        match SelectColumns(cols, names[1..])
        case Err(e) => Err(e)
        case Ok(rest) => Ok([cols[i]] + rest)
  }

  /** `names[i]` is the first of `names` that no column carries. */
  predicate FirstMissing(cols: seq<Column>, names: seq<string>, i: nat)
  {
    i < |names| && names[i] !in ColumnNames(cols)
    && forall j :: 0 <= j < i ==> names[j] in ColumnNames(cols)
  }

  /** Selecting succeeds exactly when every requested name is a column, and
      otherwise raises KeyError for the first one missing. */
  lemma {:induction false} SelectColumnsOutcome(cols: seq<Column>, names: seq<string>)
    ensures SelectColumns(cols, names).Ok? <==> forall i :: 0 <= i < |names| ==> names[i] in ColumnNames(cols)
    ensures SelectColumns(cols, names).Err? ==>
      exists i: nat :: FirstMissing(cols, names, i) && SelectColumns(cols, names).error == KeyError(names[i])
  {
    if names != [] {
      IndexOfIff(cols, names[0]);
      SelectColumnsOutcome(cols, names[1..]);
      var rest := names[1..];
      if IndexOf(cols, names[0]).None? {
        assert FirstMissing(cols, names, 0);
      } else if SelectColumns(cols, rest).Err? {
        var i: nat :| FirstMissing(cols, rest, i) && SelectColumns(cols, rest).error == KeyError(rest[i]);
        assert names[i + 1] == rest[i];
        assert forall j :: 0 < j <= i ==> names[j] == rest[j - 1];
        assert FirstMissing(cols, names, i + 1);
      } else {
        forall i | 0 <= i < |names| ensures names[i] in ColumnNames(cols) {
          if i > 0 { assert names[i] == rest[i - 1]; }
        }
      }
    }
  }

  // ---------------------------------------------------------------------
  // reshape_to_tidy_format
  // ---------------------------------------------------------------------

  const ScoreMetrics: seq<string> :=
    ["mental_health", "subjective_well_being", "life_satisfaction", "work_satisfaction"]

  const PartialSuffix: string := "_partial"

  function PartialColumns(): seq<string>
  {
    seq(|ScoreMetrics|, i requires 0 <= i < |ScoreMetrics| => ScoreMetrics[i] + PartialSuffix)
  }

  /** A row of `pd.melt(data, id_vars=["date", "note"], ...)`. */
  datatype MeltRow = MeltRow(date: Cell, note: Cell, metric: string, value: Cell)

  /** A row of the tidy table. */
  datatype TidyRow = TidyRow(date: Cell, note: Cell, metric: string, value: Cell, valuePartial: Cell)

  /** `pd.melt`: one row per (value column, input row), column by column. */
  function Melt(dates: seq<Cell>, notes: seq<Cell>, cols: seq<Column>): (r: seq<MeltRow>)
    requires |notes| == |dates|
    requires forall i :: 0 <= i < |cols| ==> |cols[i].cells| == |dates|
    ensures |r| == |cols| * |dates|
  {
    if cols == [] then []
    else
      var last := cols[|cols| - 1];
      Melt(dates, notes, cols[..|cols| - 1])
      + seq(|dates|, k requires 0 <= k < |dates| => MeltRow(dates[k], notes[k], last.name, last.cells[k]))
  }

  /** Row `i * n + k` of the melt is row `k` of value column `i`. */
  lemma {:induction false} MeltAt(dates: seq<Cell>, notes: seq<Cell>, cols: seq<Column>, i: nat, k: nat)
    requires |notes| == |dates|
    requires forall j :: 0 <= j < |cols| ==> |cols[j].cells| == |dates|
    requires i < |cols| && k < |dates|
    ensures i * |dates| + k < |cols| * |dates|
    ensures Melt(dates, notes, cols)[i * |dates| + k] == MeltRow(dates[k], notes[k], cols[i].name, cols[i].cells[k])
  {
    var n := |dates|;
    var init := cols[..|cols| - 1];
    assert (|cols| - 1) * n == |cols| * n - n;
    if i < |cols| - 1 {
      MeltAt(dates, notes, init, i, k);
      assert i * n + k < |init| * n;
    } else {
      assert i * n == |init| * n;
    }
  }

  /** `tidy_partial["metric"].str.replace("_partial", "")`. */
  function StripPartial(r: MeltRow): MeltRow
  {
    r.(metric := ReplaceAll(r.metric, PartialSuffix, ""))
  }

  function StripPartials(rows: seq<MeltRow>): (r: seq<MeltRow>)
    ensures |r| == |rows|
  {
    seq(|rows|, i requires 0 <= i < |rows| => StripPartial(rows[i]))
  }

  predicate SameKey(x: MeltRow, y: MeltRow)
  {
    x.date == y.date && x.metric == y.metric && x.note == y.note
  }

  /** The `value_partial` cells of the rows of `ps` whose key equals `x`'s
      (pandas matches NaN keys with each other). */
  function PartialFor(x: MeltRow, ps: seq<MeltRow>): seq<Cell>
  {
    if ps == [] then []
    else PartialFor(x, ps[..|ps| - 1]) + (if SameKey(x, ps[|ps| - 1]) then [ps[|ps| - 1].value] else [])
  }

  /** The rows one left row produces in the left merge. */
  function MergeTidy(x: MeltRow, ps: seq<MeltRow>): seq<TidyRow>
  {
    var m := PartialFor(x, ps);
    if m == [] then [TidyRow(x.date, x.note, x.metric, x.value, Missing)]
    else seq(|m|, i requires 0 <= i < |m| => TidyRow(x.date, x.note, x.metric, x.value, m[i]))
  }

  /** `pd.merge(tidy_full, tidy_partial, on=["date", "metric", "note"], how="left")`. */
  function LeftMergeTidy(full: seq<MeltRow>, ps: seq<MeltRow>): seq<TidyRow>
  {
    if full == [] then [] else LeftMergeTidy(full[..|full| - 1], ps) + MergeTidy(full[|full| - 1], ps)
  }

  function ReshapeSpec(f: Frame): Result<seq<TidyRow>>
    requires Valid(f)
  {
    match SelectColumns(f.columns, ReshapeColumns())
    case Err(e) => Err(e)
    case Ok(sel) =>
      var dates := sel[0].cells;
      var notes := sel[1].cells;
      var full := Melt(dates, notes, sel[2..6]);
      var partial := StripPartials(Melt(dates, notes, sel[6..10]));
      Ok(LeftMergeTidy(full, partial))
  }

  /** Exactly one matching right row gives exactly its cell. */
  lemma {:induction false} PartialForUnique(x: MeltRow, ps: seq<MeltRow>, j: nat)
    requires j < |ps| && SameKey(x, ps[j])
    requires forall i :: 0 <= i < |ps| && i != j ==> !SameKey(x, ps[i])
    ensures PartialFor(x, ps) == [ps[j].value]
  {
    var init := ps[..|ps| - 1];
    if j < |ps| - 1 {
      PartialForUnique(x, init, j);
    } else {
      PartialForNone(x, init);
    }
  }

  lemma {:induction false} PartialForNone(x: MeltRow, ps: seq<MeltRow>)
    requires forall i :: 0 <= i < |ps| ==> !SameKey(x, ps[i])
    ensures PartialFor(x, ps) == []
  {
    if ps != [] {
      PartialForNone(x, ps[..|ps| - 1]);
    }
  }

  /** A left merge in which every left row matches exactly once keeps the
      left rows in order. */
  lemma {:induction false} LeftMergeOneEach(full: seq<MeltRow>, ps: seq<MeltRow>)
    requires forall i :: 0 <= i < |full| ==> |MergeTidy(full[i], ps)| == 1
    ensures |LeftMergeTidy(full, ps)| == |full|
    ensures forall i :: 0 <= i < |full| ==> LeftMergeTidy(full, ps)[i] == MergeTidy(full[i], ps)[0]
  {
    LeftMergePrefix(full, ps, |full|);
    assert full[..|full|] == full;
  }

  /** `LeftMergeOneEach` for the first `n` left rows. */
  lemma {:induction false} LeftMergePrefix(full: seq<MeltRow>, ps: seq<MeltRow>, n: nat)
    requires n <= |full|
    requires forall i :: 0 <= i < |full| ==> |MergeTidy(full[i], ps)| == 1
    ensures |LeftMergeTidy(full[..n], ps)| == n
    ensures forall i :: 0 <= i < n ==> LeftMergeTidy(full[..n], ps)[i] == MergeTidy(full[i], ps)[0]
  {
    if n > 0 {
      LeftMergePrefix(full, ps, n - 1);
      var l := LeftMergeTidy(full[..n - 1], ps);
      var one := MergeTidy(full[n - 1], ps);
      assert full[..n][..n - 1] == full[..n - 1];
      assert full[..n][n - 1] == full[n - 1];
      assert LeftMergeTidy(full[..n], ps) == l + one;
      assert |one| == 1;
    }
  }

  /** Removing "_partial" from a partial column's name gives its score
      metric. */
  lemma {:induction false} StripMetric(m: string, i: nat)
    requires i < |ScoreMetrics| && m == ScoreMetrics[i] + PartialSuffix
    ensures ReplaceAll(m, PartialSuffix, "") == ScoreMetrics[i]
  {
    RemoveTrailing(ScoreMetrics[i], PartialSuffix, 'p');
  }

  /** Rows told apart by their (date, note) pair. */
  predicate DistinctRows(dates: seq<Cell>, notes: seq<Cell>)
  {
    forall a, b :: 0 <= a < |dates| && 0 <= b < |dates| && b < |notes| && a < |notes| && a != b ==>
      dates[a] != dates[b] || notes[a] != notes[b]
  }

  function ReshapeColumns(): (r: seq<string>)
    ensures |r| == 10 && r[0] == "date" && r[1] == "note"
    ensures forall j :: 0 <= j < 4 ==> r[2 + j] == ScoreMetrics[j] && r[6 + j] == ScoreMetrics[j] + PartialSuffix
  {
    ["date", "note"] + ScoreMetrics + PartialColumns()
  }

  lemma {:induction false} ScoreMetricsDistinct()
    ensures forall i, j :: 0 <= i < |ScoreMetrics| && 0 <= j < |ScoreMetrics| && i != j ==> ScoreMetrics[i] != ScoreMetrics[j]
  {
    assert ScoreMetrics[2][0] != ScoreMetrics[3][0];
  }

  /** `rows` is the melt of `cols` over the id cells: row `q` comes from
      input row `q % n` of value column `q / n`, where `n` is the height. */
  predicate MeltOf(rows: seq<MeltRow>, dates: seq<Cell>, notes: seq<Cell>, cols: seq<Column>)
  {
    && |notes| == |dates|
    && (forall j :: 0 <= j < |cols| ==> |cols[j].cells| == |dates|)
    && |rows| == |cols| * |dates|
    && forall q :: 0 <= q < |rows| ==>
         |dates| > 0 && 0 <= q / |dates| < |cols| && q % |dates| < |dates|
         && rows[q] == MeltRow(dates[q % |dates|], notes[q % |dates|], cols[q / |dates|].name, cols[q / |dates|].cells[q % |dates|])
  }

  lemma {:induction false} MeltIsMeltOf(dates: seq<Cell>, notes: seq<Cell>, cols: seq<Column>)
    requires |notes| == |dates|
    requires forall j :: 0 <= j < |cols| ==> |cols[j].cells| == |dates|
    ensures MeltOf(Melt(dates, notes, cols), dates, notes, cols)
  {
    var n := |dates|;
    var rows := Melt(dates, notes, cols);
    forall q | 0 <= q < |rows|
      ensures n > 0 && 0 <= q / n < |cols| && q % n < n
      && rows[q] == MeltRow(dates[q % n], notes[q % n], cols[q / n].name, cols[q / n].cells[q % n])
    {
      DivBound(q, n, |cols|);
      MeltAt(dates, notes, cols, q / n, q % n);
    }
  }

  /** A left merge whose right side carries, at each position, a row with
      the same key as the left row there, while the left keys are
      pairwise distinct, pairs every left row with exactly that right row. */
  lemma {:induction false} LeftMergeAligned(full: seq<MeltRow>, partial: seq<MeltRow>)
    requires |partial| == |full|
    requires forall q :: 0 <= q < |full| ==> SameKey(full[q], partial[q])
    requires forall q, q' :: 0 <= q < q' < |full| ==> !SameKey(full[q], full[q'])
    ensures |LeftMergeTidy(full, partial)| == |full|
    ensures forall q :: 0 <= q < |full| ==>
      LeftMergeTidy(full, partial)[q] == TidyRow(full[q].date, full[q].note, full[q].metric, full[q].value, partial[q].value)
  {
    forall q | 0 <= q < |full|
      ensures MergeTidy(full[q], partial) == [TidyRow(full[q].date, full[q].note, full[q].metric, full[q].value, partial[q].value)]
    {
      forall q' | 0 <= q' < |partial| && q' != q
        ensures !SameKey(full[q], partial[q'])
      {
        assert SameKey(full[q'], partial[q']);
        if q < q' {
          assert !SameKey(full[q], full[q']);
        } else {
          assert !SameKey(full[q'], full[q]);
        }
      }
      PartialForUnique(full[q], partial, q);
    }
    LeftMergeOneEach(full, partial);
  }

  /** Melted score columns with distinct metric names over rows told apart
      by (date, note) have pairwise distinct keys. */
  lemma {:induction false} MeltKeysDistinct(full: seq<MeltRow>, dates: seq<Cell>, notes: seq<Cell>, vcols: seq<Column>)
    requires MeltOf(full, dates, notes, vcols) && DistinctRows(dates, notes)
    requires forall i, j :: 0 <= i < |vcols| && 0 <= j < |vcols| && i != j ==> vcols[i].name != vcols[j].name
    ensures forall q, q' :: 0 <= q < q' < |full| ==> !SameKey(full[q], full[q'])
  {
    var n := |dates|;
    forall q, q' | 0 <= q < q' < |full|
      ensures !SameKey(full[q], full[q'])
    {
      DivBound(q, n, |vcols|);
      DivBound(q', n, |vcols|);
      var i, k, i', k' := q / n, q % n, q' / n, q' % n;
      if i == i' {
        assert k != k';
        assert dates[k] != dates[k'] || notes[k] != notes[k'];
      } else {
        assert vcols[i].name != vcols[i'].name;
      }
    }
  }

  /** The id columns and the full and partial score columns, as
      `reshape_to_tidy_format` selects them: rows told apart by (date,
      note), distinct metric names, and each partial column's name turning
      into its metric's name once "_partial" is removed. */
  predicate TidyInputs(dates: seq<Cell>, notes: seq<Cell>, vcols: seq<Column>, pcols: seq<Column>)
  {
    && |notes| == |dates| && DistinctRows(dates, notes)
    && |vcols| == |pcols|
    && (forall j :: 0 <= j < |vcols| ==> |vcols[j].cells| == |dates| && |pcols[j].cells| == |dates|)
    && (forall j :: 0 <= j < |pcols| ==> ReplaceAll(pcols[j].name, PartialSuffix, "") == vcols[j].name)
    && (forall i, j :: 0 <= i < |vcols| && 0 <= j < |vcols| && i != j ==> vcols[i].name != vcols[j].name)
  }

  /** The merge pairs each melted score row with the melted partial row
      at the same position. */
  lemma {:induction false} TidyTable(full: seq<MeltRow>, raw: seq<MeltRow>, dates: seq<Cell>, notes: seq<Cell>, vcols: seq<Column>, pcols: seq<Column>)
    requires TidyInputs(dates, notes, vcols, pcols)
    requires MeltOf(full, dates, notes, vcols) && MeltOf(raw, dates, notes, pcols)
    ensures |LeftMergeTidy(full, StripPartials(raw))| == |full| == |raw|
    ensures forall q :: 0 <= q < |full| ==>
      LeftMergeTidy(full, StripPartials(raw))[q]
      == TidyRow(full[q].date, full[q].note, full[q].metric, full[q].value, raw[q].value)
  {
    var partial := StripPartials(raw);
    MeltKeysDistinct(full, dates, notes, vcols);
    StripAligned(full, raw, dates, notes, vcols, pcols);
    LeftMergeAligned(full, partial);
  }

  /** Removing "_partial" from the melted partial metrics aligns their keys
      with the melted score columns, position by position. */
  lemma {:induction false} StripAligned(full: seq<MeltRow>, raw: seq<MeltRow>, dates: seq<Cell>, notes: seq<Cell>, vcols: seq<Column>, pcols: seq<Column>)
    requires TidyInputs(dates, notes, vcols, pcols)
    requires MeltOf(full, dates, notes, vcols) && MeltOf(raw, dates, notes, pcols)
    ensures |StripPartials(raw)| == |full|
    ensures forall q :: 0 <= q < |full| ==> SameKey(full[q], StripPartials(raw)[q]) && StripPartials(raw)[q].value == raw[q].value
  {
    var partial := StripPartials(raw);
    forall q | 0 <= q < |full|
      ensures SameKey(full[q], partial[q]) && partial[q].value == raw[q].value
    {
      var i := q / |dates|;
      assert raw[q].metric == pcols[i].name && full[q].metric == vcols[i].name;
      assert ReplaceAll(pcols[i].name, PartialSuffix, "") == vcols[i].name;
      assert partial[q] == StripPartial(raw[q]);
    }
  }

  /** With rows told apart by (date, note), the tidy table has one row per
      (score metric, input row), metric by metric: row `q` is input row
      `q % height` under the metric of block `q / height`, with that
      metric's full and partial cells of the row. */
  lemma {:induction false} ReshapeCorrect(f: Frame, sel: seq<Column>)
    requires Valid(f)
    requires SelectColumns(f.columns, ReshapeColumns()) == Ok(sel)
    requires DistinctRows(sel[0].cells, sel[1].cells)
    ensures forall j :: 0 <= j < |sel| ==> |sel[j].cells| == f.height
    ensures forall i :: 0 <= i < 4 ==> sel[2 + i].name == ScoreMetrics[i]
    ensures ReshapeSpec(f).Ok?
    ensures |ReshapeSpec(f).value| == 4 * f.height
    ensures forall q :: 0 <= q < |ReshapeSpec(f).value| ==>
      f.height > 0 && 0 <= q / f.height < 4
      && ReshapeSpec(f).value[q]
         == TidyRow(sel[0].cells[q % f.height], sel[1].cells[q % f.height], sel[2 + q / f.height].name,
                    sel[2 + q / f.height].cells[q % f.height], sel[6 + q / f.height].cells[q % f.height])
  {
    SelectedTidyInputs(f, sel);
    ReshapeSpecIs(f, sel);
    TidyOfSelected(sel, f.height);
  }

  /** `TidyFromSelected` applied to the two melts of the selection. */
  lemma {:induction false} TidyOfSelected(sel: seq<Column>, n: nat)
    requires |sel| == 10 && |sel[0].cells| == n
    requires forall j :: 0 <= j < |sel| ==> |sel[j].cells| == n
    requires TidyInputs(sel[0].cells, sel[1].cells, sel[2..6], sel[6..10])
    ensures var out := LeftMergeTidy(Melt(sel[0].cells, sel[1].cells, sel[2..6]),
                                     StripPartials(Melt(sel[0].cells, sel[1].cells, sel[6..10])));
      && |out| == 4 * n
      && forall q :: 0 <= q < |out| ==>
        n > 0 && 0 <= q / n < 4
        && out[q] == TidyRow(sel[0].cells[q % n], sel[1].cells[q % n], sel[2 + q / n].name,
                             sel[2 + q / n].cells[q % n], sel[6 + q / n].cells[q % n])
  {
    var dates, notes := sel[0].cells, sel[1].cells;
    var full, raw := Melt(dates, notes, sel[2..6]), Melt(dates, notes, sel[6..10]);
    MeltIsMeltOf(dates, notes, sel[2..6]);
    MeltIsMeltOf(dates, notes, sel[6..10]);
    TidyFromSelected(sel, n, full, raw);
  }

  lemma {:induction false} TidyFromSelected(sel: seq<Column>, n: nat, full: seq<MeltRow>, raw: seq<MeltRow>)
    requires |sel| == 10 && |sel[0].cells| == n
    requires TidyInputs(sel[0].cells, sel[1].cells, sel[2..6], sel[6..10])
    requires MeltOf(full, sel[0].cells, sel[1].cells, sel[2..6]) && MeltOf(raw, sel[0].cells, sel[1].cells, sel[6..10])
    ensures |LeftMergeTidy(full, StripPartials(raw))| == 4 * n
    ensures forall q :: 0 <= q < |LeftMergeTidy(full, StripPartials(raw))| ==>
      n > 0 && 0 <= q / n < 4 && q % n < n
      && |sel[2 + q / n].cells| == n && |sel[6 + q / n].cells| == n
      && LeftMergeTidy(full, StripPartials(raw))[q]
         == TidyRow(sel[0].cells[q % n], sel[1].cells[q % n], sel[2 + q / n].name,
                    sel[2 + q / n].cells[q % n], sel[6 + q / n].cells[q % n])
  {
    var vcols, pcols := sel[2..6], sel[6..10];
    TidyTable(full, raw, sel[0].cells, sel[1].cells, vcols, pcols);
    var out := LeftMergeTidy(full, StripPartials(raw));
    forall q | 0 <= q < |out|
      ensures n > 0 && 0 <= q / n < 4 && q % n < n
      && |sel[2 + q / n].cells| == n && |sel[6 + q / n].cells| == n
      && out[q] == TidyRow(sel[0].cells[q % n], sel[1].cells[q % n], sel[2 + q / n].name,
                           sel[2 + q / n].cells[q % n], sel[6 + q / n].cells[q % n])
    {
      var m, k := q / n, q % n;
      assert n > 0 && 0 <= m < 4 && k < n;
      assert vcols[m] == sel[2 + m] && pcols[m] == sel[6 + m];
      assert full[q] == MeltRow(sel[0].cells[k], sel[1].cells[k], vcols[m].name, vcols[m].cells[k]);
      assert raw[q] == MeltRow(sel[0].cells[k], sel[1].cells[k], pcols[m].name, pcols[m].cells[k]);
    }
  }

  lemma {:induction false} DivBound(q: int, n: int, m: nat)
    requires 0 <= q < m * n
    ensures n > 0 && 0 <= q / n < m && 0 <= q % n < n && q == q / n * n + q % n
  {
    assert n > 0;
    assert q / n * n <= q;
  }

  /** The selected columns have the frame's height and the names
      `reshape_to_tidy_format` asks for. */
  lemma {:induction false} SelectedTidyInputs(f: Frame, sel: seq<Column>)
    requires Valid(f)
    requires SelectColumns(f.columns, ReshapeColumns()) == Ok(sel)
    requires DistinctRows(sel[0].cells, sel[1].cells)
    ensures forall j :: 0 <= j < |sel| ==> |sel[j].cells| == f.height
    ensures forall i :: 0 <= i < 4 ==> sel[2 + i].name == ScoreMetrics[i]
    ensures TidyInputs(sel[0].cells, sel[1].cells, sel[2..6], sel[6..10])
  {
    var names := ReshapeColumns();
    forall j | 0 <= j < |sel| ensures |sel[j].cells| == f.height {
      assert sel[j] in f.columns;
    }
    var vcols, pcols := sel[2..6], sel[6..10];
    forall j | 0 <= j < 4
      ensures vcols[j].name == ScoreMetrics[j] && ReplaceAll(pcols[j].name, PartialSuffix, "") == vcols[j].name
    {
      assert vcols[j].name == names[2 + j];
      assert pcols[j].name == names[6 + j];
      StripMetric(pcols[j].name, j);
    }
    ScoreMetricsDistinct();
  }

  lemma {:induction false} ReshapeSpecIs(f: Frame, sel: seq<Column>)
    requires Valid(f)
    requires SelectColumns(f.columns, ReshapeColumns()) == Ok(sel)
    requires forall j :: 0 <= j < |sel| ==> |sel[j].cells| == f.height
    ensures ReshapeSpec(f)
         == Ok(LeftMergeTidy(Melt(sel[0].cells, sel[1].cells, sel[2..6]), StripPartials(Melt(sel[0].cells, sel[1].cells, sel[6..10]))))
  {
  }

  /** `reshape_to_tidy_format` fails exactly when the table lacks one of
      the id, score or partial columns, with KeyError for the first missing. */
  lemma {:induction false} ReshapeErrors(f: Frame)
    requires Valid(f)
    ensures ReshapeSpec(f).Err? <==> exists i :: 0 <= i < 10 && ReshapeColumns()[i] !in ColumnNames(f.columns)
    ensures ReshapeSpec(f).Err? ==>
      exists i: nat :: FirstMissing(f.columns, ReshapeColumns(), i) && ReshapeSpec(f).error == KeyError(ReshapeColumns()[i])
  {
    SelectColumnsOutcome(f.columns, ReshapeColumns());
  }

  // ---------------------------------------------------------------------
  // wrangle_non_exercise_goal_data
  // ---------------------------------------------------------------------

  const GoalColumns: seq<string> :=
    ["date", "asked_how_friends_are", "energizing_personal_interactions",
     "energizing_professional_interactions", "floss"]

  /** `cell - 1.0` on a numeric column; NaN stays NaN. */
  function MinusOne(c: Cell): Cell
  {
    match c
    case Num(x) => Num(x - 1.0)
    case _ => Missing
  }

  function OffsetColumn(c: Column): Column
  {
    Column(c.name, seq(|c.cells|, k requires 0 <= k < |c.cells| => MinusOne(c.cells[k])))
  }

  /** The goal table: the date and the four goal columns, each goal count
      lowered by one.  Subtracting from a column holding text raises
      TypeError. */
  function GoalDataSpec(f: Frame): Result<Frame>
  {
    match SelectColumns(f.columns, GoalColumns)
    case Err(e) => Err(e)
    case Ok(sel) =>
      if exists j :: 1 <= j < |sel| && !Numeric(sel[j]) then Err(TypeError("goal offset"))
      else Ok(Frame(f.height, OffsetAfterFirst(sel)))
  }

  /** Every column but the first lowered by one. */
  function OffsetAfterFirst(c: seq<Column>): seq<Column>
  {
    if c == [] then [] else [c[0]] + seq(|c| - 1, j requires 0 <= j < |c| - 1 => OffsetColumn(c[j + 1]))
  }

  /** `for col in data.columns[1:]: data[col] = data[col] - 1.0`. */
  method OffsetGoals(cols: array<Column>)
    modifies cols
    ensures cols.Length > 0 ==> cols[0] == old(cols[0])
    ensures forall j :: 1 <= j < cols.Length ==> cols[j] == OffsetColumn(old(cols[j]))
  {
    var j := 1;
    while j < cols.Length
      invariant 1 <= j
      invariant cols.Length > 0 ==> cols[0] == old(cols[0])
      invariant forall i :: 1 <= i < j && i < cols.Length ==> cols[i] == OffsetColumn(old(cols[i]))
      invariant forall i :: j <= i < cols.Length ==> cols[i] == old(cols[i])
    {
      cols[j] := OffsetColumn(cols[j]);
      j := j + 1;
    }
  }

  /** Selects the goal columns of a cleaned table and offsets them. */
  method GoalData(h: Frame) returns (r: Result<Frame>)
    ensures r == GoalDataSpec(h)
  {
    var sel := SelectColumns(h.columns, GoalColumns);
    if sel.Err? {
      return Err(sel.error);
    }
    var c := sel.value;
    if exists j :: 1 <= j < |c| && !Numeric(c[j]) {
      return Err(TypeError("goal offset"));
    }
    var cols := new Column[|c|](i requires 0 <= i < |c| => c[i]);
    assert cols[..] == c;
    OffsetGoals(cols);
    OffsetGoalsResult(c, cols[..]);
    r := Ok(Frame(h.height, cols[..]));
  }

  lemma {:induction false} OffsetGoalsResult(c: seq<Column>, d: seq<Column>)
    requires |d| == |c|
    requires |c| > 0 ==> d[0] == c[0]
    requires forall j :: 1 <= j < |c| ==> d[j] == OffsetColumn(c[j])
    ensures d == OffsetAfterFirst(c)
  {
    if c != [] {
      var tail := seq(|c| - 1, j requires 0 <= j < |c| - 1 => OffsetColumn(c[j + 1]));
      var want := [c[0]] + tail;
      assert OffsetAfterFirst(c) == want;
      forall i | 0 <= i < |want| ensures d[i] == want[i] {
        if i > 0 {
          assert want[i] == tail[i - 1] == OffsetColumn(c[i]);
        }
      }
      assert d == want;
    }
  }

  /** `wrangle_non_exercise_goal_data` on the merged table. */
  method WrangleNonExerciseGoalData(df: Frame) returns (r: Result<Frame>)
    requires Valid(df)
    ensures r == (match CleanMergedDataSpec(df)
                  case Err(e) => Err(e)
                  case Ok(h) => GoalDataSpec(h))
  {
    var cleaned := CleanMergedData(df);
    if cleaned.Err? {
      return Err(cleaned.error);
    }
    r := GoalData(cleaned.value);
  }

  /** The goal table keeps the date column and the row count, and lowers
      every present goal count by exactly one (adding one back gives the
      cleaned cell); missing counts stay missing. */
  lemma {:induction false} GoalDataCorrect(f: Frame, g: Frame)
    requires Valid(f) && GoalDataSpec(f) == Ok(g)
    ensures forall j :: 0 <= j < 5 ==> IndexOf(f.columns, GoalColumns[j]).Some?
    ensures Valid(g) && g.height == f.height
    ensures ColumnNames(g.columns) == GoalColumns
    ensures g.columns[0] == f.columns[IndexOf(f.columns, "date").value]
    ensures forall j, k :: 1 <= j < 5 && 0 <= k < f.height ==>
      var src := f.columns[IndexOf(f.columns, GoalColumns[j]).value].cells[k];
      && !src.Str?
      && (src.Missing? <==> g.columns[j].cells[k].Missing?)
      && (src.Num? ==> g.columns[j].cells[k] == Num(src.x - 1.0) && g.columns[j].cells[k].x + 1.0 == src.x)
  {
    GoalDataColumns(f, g);
    forall j, k | 1 <= j < 5 && 0 <= k < f.height
      ensures var src := f.columns[IndexOf(f.columns, GoalColumns[j]).value].cells[k];
        && !src.Str?
        && (src.Missing? <==> g.columns[j].cells[k].Missing?)
        && (src.Num? ==> g.columns[j].cells[k] == Num(src.x - 1.0) && g.columns[j].cells[k].x + 1.0 == src.x)
    {
      GoalDataCell(f, g, j, k);
    }
  }

  /** The goal table has the goal columns, in order, each of the table's
      height, the first being the date column. */
  lemma {:induction false} GoalDataColumns(f: Frame, g: Frame)
    requires Valid(f) && GoalDataSpec(f) == Ok(g)
    ensures forall j :: 0 <= j < 5 ==> IndexOf(f.columns, GoalColumns[j]).Some?
    ensures Valid(g) && g.height == f.height
    ensures ColumnNames(g.columns) == GoalColumns
    ensures g.columns[0] == f.columns[IndexOf(f.columns, "date").value]
  {
    GoalDataShape(f, g);
    var sel := SelectColumns(f.columns, GoalColumns).value;
    forall j | 0 <= j < 5 ensures |g.columns[j].cells| == f.height && g.columns[j].name == GoalColumns[j] {
      assert sel[j] in f.columns;
    }
    assert GoalColumns[0] == "date";
  }

  /** One goal cell: a number lowered by one, or missing where the source
      cell is missing. */
  lemma {:induction false} GoalDataCell(f: Frame, g: Frame, j: nat, k: nat)
    requires Valid(f) && GoalDataSpec(f) == Ok(g)
    requires 1 <= j < 5 && k < f.height
    ensures IndexOf(f.columns, GoalColumns[j]).Some? && j < |g.columns| && k < |g.columns[j].cells|
    ensures var src := f.columns[IndexOf(f.columns, GoalColumns[j]).value].cells[k];
      && !src.Str?
      && (src.Missing? <==> g.columns[j].cells[k].Missing?)
      && (src.Num? ==> g.columns[j].cells[k] == Num(src.x - 1.0) && g.columns[j].cells[k].x + 1.0 == src.x)
  {
    GoalDataShape(f, g);
    var sel := SelectColumns(f.columns, GoalColumns).value;
    assert sel[j] in f.columns && sel[j] == f.columns[IndexOf(f.columns, GoalColumns[j]).value];
    OffsetCell(f, sel[j], k);
  }

  /** A cell of a numeric column of `f`, lowered by one. */
  lemma {:induction false} OffsetCell(f: Frame, c: Column, k: nat)
    requires Valid(f) && c in f.columns && Numeric(c) && k < f.height
    ensures k < |c.cells| && k < |OffsetColumn(c).cells|
    ensures var src := c.cells[k];
      var out := OffsetColumn(c).cells[k];
      && !src.Str?
      && (src.Missing? <==> out.Missing?)
      && (src.Num? ==> out == Num(src.x - 1.0) && out.x + 1.0 == src.x)
  {
    var i :| 0 <= i < |f.columns| && f.columns[i] == c;
  }

  /** A goal table that succeeds is the selected date column followed by
      the four selected goal columns, each numeric and lowered by one. */
  lemma {:induction false} GoalDataShape(f: Frame, g: Frame)
    requires GoalDataSpec(f) == Ok(g)
    ensures SelectColumns(f.columns, GoalColumns).Ok?
    ensures var sel := SelectColumns(f.columns, GoalColumns).value;
      && g.height == f.height && |g.columns| == 5 && g.columns[0] == sel[0]
      && forall j :: 1 <= j < 5 ==> Numeric(sel[j]) && g.columns[j] == OffsetColumn(sel[j])
  {
    var sel := SelectColumns(f.columns, GoalColumns).value;
    var out := OffsetAfterFirst(sel);
    assert g.columns == out;
    forall j | 1 <= j < 5 ensures Numeric(sel[j]) && out[j] == OffsetColumn(sel[j]) {
    }
  }

  /** The goal table fails with KeyError exactly when a goal column is
      missing (naming the first), and with TypeError exactly when all are
      present but one holds text. */
  lemma {:induction false} GoalDataErrors(f: Frame)
    ensures GoalDataSpec(f).Err? && GoalDataSpec(f).error.KeyError? <==>
      exists i :: 0 <= i < 5 && GoalColumns[i] !in ColumnNames(f.columns)
    ensures GoalDataSpec(f).Err? && GoalDataSpec(f).error.KeyError? ==>
      exists i: nat :: FirstMissing(f.columns, GoalColumns, i) && GoalDataSpec(f).error == KeyError(GoalColumns[i])
    ensures GoalDataSpec(f).Err? && GoalDataSpec(f).error.TypeError? <==>
      (forall i :: 0 <= i < 5 ==> GoalColumns[i] in ColumnNames(f.columns))
      && exists j :: 1 <= j < 5 && !Numeric(f.columns[IndexOf(f.columns, GoalColumns[j]).value])
  {
    SelectColumnsOutcome(f.columns, GoalColumns);
  }
}
