/** Shared vocabulary of the model: missing values, the exceptions the
    pipeline can raise, and NaN-skipping aggregates over optional reals.

    A pandas cell that holds NaN (or None) is `None`; a present value is
    `Some(v)`.  pandas aggregates (`min`, `max`, `sum`) skip NaN. */
module Common {

  datatype Option<T> = None | Some(value: T)

  /** The Python exceptions the modelled code can raise. */
  datatype Error =
    | KeyError(key: string)
    | TypeError(what: string)
    | ValueError(what: string)
    | NameError(name: string)
    | AttributeError(name: string)
    | ZeroDivisionError

  datatype Result<T> = Ok(value: T) | Err(error: Error)

  /** Elementwise NaN-skipping maximum of two cells. */
  function Max2(a: Option<real>, b: Option<real>): Option<real>
  {
    match a
    case None => b
    case Some(x) =>
      match b
      case None => a
      case Some(y) => Some(if x >= y then x else y)
  }

  /** Elementwise NaN-skipping minimum of two cells. */
  function Min2(a: Option<real>, b: Option<real>): Option<real>
  {
    match a
    case None => b
    case Some(x) =>
      match b
      case None => a
      case Some(y) => Some(if x <= y then x else y)
  }

  /** `Series.max()`: the largest present value, missing when none is present. */
  function MaxOf(vs: seq<Option<real>>): Option<real>
  {
    if vs == [] then None else Max2(MaxOf(vs[..|vs| - 1]), vs[|vs| - 1])
  }

  /** `Series.min()`: the smallest present value, missing when none is present. */
  function MinOf(vs: seq<Option<real>>): Option<real>
  {
    if vs == [] then None else Min2(MinOf(vs[..|vs| - 1]), vs[|vs| - 1])
  }

  /** True when some cell of `vs` is present. */
  predicate AnyPresent(vs: seq<Option<real>>)
  {
    exists i :: 0 <= i < |vs| && vs[i].Some?
  }

  /** MaxOf is the greatest present value: it is present exactly when some
      cell is, it is one of the cells, and no present cell exceeds it. */
  lemma {:induction false} MaxOfIsGreatest(vs: seq<Option<real>>)
    ensures MaxOf(vs).Some? <==> AnyPresent(vs)
    ensures MaxOf(vs).Some? ==> exists i :: 0 <= i < |vs| && vs[i] == MaxOf(vs)
    ensures forall i :: 0 <= i < |vs| && vs[i].Some? ==> vs[i].value <= MaxOf(vs).value
  {
    if vs != [] {
      var init := vs[..|vs| - 1];
      MaxOfIsGreatest(init);
      assert forall i :: 0 <= i < |init| ==> init[i] == vs[i];
      if MaxOf(init).Some? {
        var j :| 0 <= j < |init| && init[j] == MaxOf(init);
        assert vs[j] == MaxOf(init);
      }
    }
  }

  /** MinOf is the least present value (dual of MaxOfIsGreatest). */
  lemma {:induction false} MinOfIsLeast(vs: seq<Option<real>>)
    ensures MinOf(vs).Some? <==> AnyPresent(vs)
    ensures MinOf(vs).Some? ==> exists i :: 0 <= i < |vs| && vs[i] == MinOf(vs)
    ensures forall i :: 0 <= i < |vs| && vs[i].Some? ==> MinOf(vs).value <= vs[i].value
  {
    if vs != [] {
      var init := vs[..|vs| - 1];
      MinOfIsLeast(init);
      assert forall i :: 0 <= i < |init| ==> init[i] == vs[i];
      if MinOf(init).Some? {
        var j :| 0 <= j < |init| && init[j] == MinOf(init);
        assert vs[j] == MinOf(init);
      }
    }
  }

  /** A maximum over cells whose present values all occur among `ys` is no
      larger than the maximum over `ys`. */
  lemma {:induction false} MaxOfMono(xs: seq<Option<real>>, ys: seq<Option<real>>)
    requires forall i :: 0 <= i < |xs| && xs[i].Some? ==> xs[i] in ys
    ensures MaxOf(xs).Some? ==> MaxOf(ys).Some? && MaxOf(xs).value <= MaxOf(ys).value
  {
    MaxOfIsGreatest(xs);
    MaxOfIsGreatest(ys);
    if MaxOf(xs).Some? {
      var i :| 0 <= i < |xs| && xs[i] == MaxOf(xs);
      var j :| 0 <= j < |ys| && ys[j] == xs[i];
    }
  }

  /** Multiplies a present cell by a constant; NaN stays NaN. */
  function Scale(v: Option<real>, c: real): Option<real>
  {
    match v
    case None => None
    case Some(x) => Some(x * c)
  }

  /** Sum of a sequence of reals. */
  function Sum(xs: seq<real>): real
  {
    if xs == [] then 0.0 else Sum(xs[..|xs| - 1]) + xs[|xs| - 1]
  }

  lemma {:induction false} SumAppend(xs: seq<real>, ys: seq<real>)
    ensures Sum(xs + ys) == Sum(xs) + Sum(ys)
  {
    if ys != [] {
      SumAppend(xs, ys[..|ys| - 1]);
      assert (xs + ys)[..|xs + ys| - 1] == xs + ys[..|ys| - 1];
    } else {
      assert xs + ys == xs;
    }
  }
}
