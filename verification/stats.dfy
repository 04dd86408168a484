/**
 * The per-column statistics used by the top-models table: pandas' `min` and
 * `max`, which skip missing values, and `mode()[0]` as used by `most_frequent`.
 */
module Stats {
  import opened Order
  import opened Table

  /** The number of rows of the column whose value is `v`. */
  function Freq<T(==)>(xs: seq<Option<T>>, v: T): nat {
    multiset(xs)[Some(v)]
  }

  /** `r` is what `series.min()` gives: the least present value, or None when there is none. */
  ghost predicate IsLeast(xs: seq<Option<int>>, r: Option<int>) {
    match r
    case None => forall x :: x in xs ==> x.None?
    case Some(v) => Some(v) in xs && forall x :: x in xs && x.Some? ==> v <= x.value
  }

  /** `r` is what `series.max()` gives: the greatest present value, or None when there is none. */
  ghost predicate IsGreatest(xs: seq<Option<int>>, r: Option<int>) {
    match r
    case None => forall x :: x in xs ==> x.None?
    case Some(v) => Some(v) in xs && forall x :: x in xs && x.Some? ==> x.value <= v
  }

  /**
   * `r` is what `most_frequent(series)` gives: None when no value is present;
   * otherwise a present value that no value outnumbers and that is below every
   * other value as frequent as it, since `mode()` lists the modes sorted.
   */
  ghost predicate IsMode<T(!new)>(xs: seq<Option<T>>, r: Option<T>, lt: (T, T) -> bool) {
    match r
    case None => forall x :: x in xs ==> x.None?
    case Some(v) =>
      && Some(v) in xs
      && (forall x :: x in xs && x.Some? ==> Freq(xs, x.value) <= Freq(xs, v))
      && (forall x :: x in xs && x.Some? && x.value != v && Freq(xs, x.value) == Freq(xs, v) ==> lt(v, x.value))
  }

  /** `series.min()` */
  function MinOf(xs: seq<Option<int>>): (r: Option<int>)
    ensures IsLeast(xs, r)
  {
    if xs == [] then None
    else
      var rest := MinOf(xs[1..]);
      assert xs == [xs[0]] + xs[1..];
      match xs[0]
      case None => rest
      case Some(v) => if rest.Some? && rest.value < v then rest else Some(v)
  }

  /** `series.max()` */
  function MaxOf(xs: seq<Option<int>>): (r: Option<int>)
    ensures IsGreatest(xs, r)
  {
    if xs == [] then None
    else
      var rest := MaxOf(xs[1..]);
      assert xs == [xs[0]] + xs[1..];
      match xs[0]
      case None => rest
      case Some(v) => if rest.Some? && rest.value > v then rest else Some(v)
  }

  /**
   * The best value among the candidates `cands`, counted in `xs`: the most
   * frequent, the smaller of two equally frequent ones.
   */
  function ModeAmong<T(==,!new)>(xs: seq<Option<T>>, cands: seq<Option<T>>, lt: (T, T) -> bool): (r: Option<T>)
    requires StrictTotalOrder(lt)
    ensures r.None? <==> forall c :: c in cands ==> c.None?
    ensures r.Some? ==> Some(r.value) in cands
    ensures r.Some? ==> forall c :: c in cands && c.Some? ==> Freq(xs, c.value) <= Freq(xs, r.value)
    ensures r.Some? ==> forall c :: c in cands && c.Some? && c.value != r.value && Freq(xs, c.value) == Freq(xs, r.value)
                                    ==> lt(r.value, c.value)
  {
    if cands == [] then None
    else
      var rest := ModeAmong(xs, cands[1..], lt);
      assert cands == [cands[0]] + cands[1..];
      match cands[0]
      case None => rest
      case Some(v) =>
        if rest.None? || Freq(xs, v) > Freq(xs, rest.value)
           || (Freq(xs, v) == Freq(xs, rest.value) && lt(v, rest.value))
        then Some(v)
        else rest
  }

  /** `most_frequent(series)`: `series.mode()[0]`, or None when the mode is empty. */
  function Mode<T(==,!new)>(xs: seq<Option<T>>, lt: (T, T) -> bool): (r: Option<T>)
    requires StrictTotalOrder(lt)
    ensures IsMode(xs, r, lt)
  {
    ModeAmong(xs, xs, lt)
  }

  /** At most one value meets `IsMode`: the tie-break leaves no choice. */
  lemma ModeIsUnique<T(!new)>(xs: seq<Option<T>>, r1: Option<T>, r2: Option<T>, lt: (T, T) -> bool)
    requires StrictTotalOrder(lt)
    requires IsMode(xs, r1, lt) && IsMode(xs, r2, lt)
    ensures r1 == r2
  {
    if r1.Some? && r2.Some? {
      var v1, v2 := r1.value, r2.value;
      assert Freq(xs, v1) == Freq(xs, v2) by {
        assert Some(v1) in xs && Some(v2) in xs;
      }
      assert v1 == v2 || (lt(v1, v2) && lt(v2, v1)) by {
        assert Some(v1) in xs && Some(v2) in xs;
      }
    }
  }

  /** On one column, the minimum and the maximum are both present or both missing, and min <= max. */
  lemma LeastAtMostGreatest(xs: seq<Option<int>>, lo: Option<int>, hi: Option<int>)
    requires IsLeast(xs, lo) && IsGreatest(xs, hi)
    ensures lo.Some? == hi.Some?
    ensures lo.Some? ==> lo.value <= hi.value
  {
  }

  /**
   * On one column, the minimum, the maximum and the mode are all present or all
   * missing, and minimum <= mode <= maximum.
   */
  lemma ModeWithinRange(xs: seq<Option<int>>, lo: Option<int>, mode: Option<int>, hi: Option<int>)
    requires IsLeast(xs, lo) && IsGreatest(xs, hi) && IsMode(xs, mode, IntLt)
    ensures lo.Some? == mode.Some? == hi.Some?
    ensures mode.Some? ==> lo.value <= mode.value <= hi.value
  {
  }
}
