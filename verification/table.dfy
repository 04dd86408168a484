/**
 * The in-memory table of car listings and pandas' boolean-mask row selection
 * `df[mask]`, on which every filter and cleaning step of the dashboard is built.
 */
module Table {

  datatype Option<T> = None | Some(value: T)

  /**
   * One row of the listings table. `Manuf`, `Model` and `date` are never missing;
   * every other column may be, and a missing (NaN) or infinite value is `None`.
   * The date is a day number; numeric columns hold integers.
   */
  datatype Listing = Listing(
    manuf: string,
    model: string,
    modelShort: Option<string>,
    date: int,
    year: Option<int>,
    mileage: Option<int>,
    price: Option<int>,
    color: Option<string>,
    bodyType: Option<string>,
    motorType: Option<string>,
    motorVolume: Option<int>,
    transmissionType: Option<string>,
    transmissionSpeeds: Option<int>)

  /** The nullable columns a cleaning step can require. */
  datatype Column =
    | Year | Mileage | Price | Color | BodyType | MotorType | MotorVolume
    | TransmissionType | TransmissionSpeeds

  /** The row has a (finite, non-missing) value in column `c`. */
  predicate Present(row: Listing, c: Column) {
    match c
    case Year => row.year.Some?
    case Mileage => row.mileage.Some?
    case Price => row.price.Some?
    case Color => row.color.Some?
    case BodyType => row.bodyType.Some?
    case MotorType => row.motorType.Some?
    case MotorVolume => row.motorVolume.Some?
    case TransmissionType => row.transmissionType.Some?
    case TransmissionSpeeds => row.transmissionSpeeds.Some?
  }

  /** `a` is `b` with some elements left out, the rest kept in order (greedy matching). */
  predicate IsSubsequence<T(==)>(a: seq<T>, b: seq<T>)
    decreases |b|
  {
    if a == [] then true
    else if b == [] then false
    else if a[0] == b[0] then IsSubsequence(a[1..], b[1..])
    else IsSubsequence(a, b[1..])
  }

  lemma {:induction false} SubsequenceOfItself<T>(s: seq<T>)
    ensures IsSubsequence(s, s)
  {
    if s != [] {
      SubsequenceOfItself(s[1..]);
    }
  }

  // Row masks, as pandas builds them from a column.

  /** `df['Manuf'].isin(sel)` */
  function ManufIsIn(sel: seq<string>): Listing -> bool {
    (row: Listing) => row.manuf in sel
  }

  /** `df['date'].isin(sel)` */
  function DateIsIn(sel: seq<int>): Listing -> bool {
    (row: Listing) => row.date in sel
  }

  /** `df['Model'].isin(sel)` */
  function ModelIsIn(sel: seq<string>): Listing -> bool {
    (row: Listing) => row.model in sel
  }

  /** `df['Model'] == m`, the rows of one `groupby('Model')` group. */
  function ModelIs(m: string): Listing -> bool {
    (row: Listing) => row.model == m
  }

  /** `df[subset].notna().all(axis=1)` */
  function NotNa(subset: seq<Column>): Listing -> bool {
    (row: Listing) => forall c :: c in subset ==> Present(row, c)
  }

  /** Every column of `subset` has a value in `row`, checked column by column. */
  predicate AllPresent(row: Listing, subset: seq<Column>)
    decreases |subset|
  {
    |subset| == 0 || (Present(row, subset[0]) && AllPresent(row, subset[1..]))
  }

  /** The `NotNa` mask is the column-by-column check. */
  lemma {:induction false} NotNaIsAllPresent(row: Listing, subset: seq<Column>)
    ensures NotNa(subset)(row) <==> AllPresent(row, subset)
    decreases |subset|
  {
    if |subset| > 0 {
      NotNaIsAllPresent(row, subset[1..]);
      assert subset == [subset[0]] + subset[1..];
    }
  }

  /** Both masks hold: `mask1 & mask2`. */
  function Both(p: Listing -> bool, q: Listing -> bool): Listing -> bool {
    (row: Listing) => p(row) && q(row)
  }

  /**
   * `df[mask]`: the rows for which `keep` holds, in their original order.
   * The result is a subsequence of `df` that holds every kept row exactly as
   * often as `df` does and no other row.
   */
  function Where(df: seq<Listing>, keep: Listing -> bool): (r: seq<Listing>)
    ensures IsSubsequence(r, df) && |r| <= |df|
    ensures forall row :: row in r <==> row in df && keep(row)
    ensures forall row :: multiset(r)[row] == if keep(row) then multiset(df)[row] else 0
  {
    if df == [] then []
    else
      var rest := Where(df[1..], keep);
      assert df == [df[0]] + df[1..];
      if keep(df[0]) then [df[0]] + rest
      else
        assert rest != [] ==> rest[0] != df[0] by {
          if rest != [] { assert rest[0] in rest; }
        }
        rest
  }

  /** Applying two masks one after the other selects what their conjunction selects. */
  lemma {:induction false} WhereWhere(df: seq<Listing>, p: Listing -> bool, q: Listing -> bool)
    ensures Where(Where(df, p), q) == Where(df, Both(p, q))
  {
    if df != [] {
      WhereWhere(df[1..], p, q);
    }
  }

  /** Masks that agree on every row of `df` select the same rows. */
  lemma {:induction false} WhereAgree(df: seq<Listing>, p: Listing -> bool, q: Listing -> bool)
    requires forall row :: row in df ==> p(row) == q(row)
    ensures Where(df, p) == Where(df, q)
  {
    if df != [] {
      WhereAgree(df[1..], p, q);
    }
  }

  /** A column of the table, `df[col]`, as a list with one value per row. */
  function Project<U>(df: seq<Listing>, col: Listing -> U): seq<U> {
    seq(|df|, i requires 0 <= i < |df| => col(df[i]))
  }

  /** `df['Model']` */
  function ModelColumn(df: seq<Listing>): seq<string> {
    Project(df, (row: Listing) => row.model)
  }

  /** `df['Price']` */
  function Prices(df: seq<Listing>): seq<Option<int>> {
    Project(df, (row: Listing) => row.price)
  }

  /** `df['Mileage']` */
  function Mileages(df: seq<Listing>): seq<Option<int>> {
    Project(df, (row: Listing) => row.mileage)
  }

  /** `df['Year']` */
  function Years(df: seq<Listing>): seq<Option<int>> {
    Project(df, (row: Listing) => row.year)
  }

  /** `df['Color']` */
  function Colors(df: seq<Listing>): seq<Option<string>> {
    Project(df, (row: Listing) => row.color)
  }

  /** `df['Motor Volume']` */
  function MotorVolumes(df: seq<Listing>): seq<Option<int>> {
    Project(df, (row: Listing) => row.motorVolume)
  }

  /** The set of models that occur in the table. */
  function ModelSet(df: seq<Listing>): set<string> {
    set row | row in df :: row.model
  }

  /** A model occurs in the `Model` column exactly when some row has it. */
  lemma ModelColumnValues(df: seq<Listing>)
    ensures forall m :: m in ModelColumn(df) <==> m in ModelSet(df)
  {
    forall m | m in ModelSet(df)
      ensures m in ModelColumn(df)
    {
      var row :| row in df && row.model == m;
      var i :| 0 <= i < |df| && df[i] == row;
      assert ModelColumn(df)[i] == m;
    }
  }

  /** There are no more distinct models than rows. */
  lemma {:induction false} ModelSetBound(df: seq<Listing>)
    ensures |ModelSet(df)| <= |df|
    ensures |ModelSet(df)| == 0 <==> |df| == 0
  {
    if df != [] {
      ModelSetBound(df[1..]);
      assert ModelSet(df) == {df[0].model} + ModelSet(df[1..]) by {
        assert df == [df[0]] + df[1..];
      }
    }
  }
}
