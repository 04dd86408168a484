/**
 * The row selections of the dashboard: the main filter, the date filter of the
 * bottom scatter plot, the cleaning steps in front of the charts, the two sorted
 * option lists offered by the multiselect widgets (manufacturers and dates), and
 * the sorted model list, which is built but never used.
 */
module Filters {
  import opened Order
  import opened Table

  /** A row passes the main filters; an empty selection does not restrict. */
  predicate MatchesMain(manufFilter: seq<string>, dateFilter: seq<int>, row: Listing) {
    && (|manufFilter| == 0 || row.manuf in manufFilter)
    && (|dateFilter| == 0 || row.date in dateFilter)
  }

  /** The main filters as one row mask. */
  function MainMask(manufFilter: seq<string>, dateFilter: seq<int>): Listing -> bool {
    (row: Listing) => MatchesMain(manufFilter, dateFilter, row)
  }

  /**
   * `apply_filters`: narrows the table to the selected manufacturers, then to the
   * selected dates, skipping a filter whose selection is empty. The two passes
   * select exactly what the single mask `MainMask` selects.
   */
  function ApplyFilters(df: seq<Listing>, manufFilter: seq<string>, dateFilter: seq<int>): (r: seq<Listing>)
    ensures r == Where(df, MainMask(manufFilter, dateFilter))
    ensures IsSubsequence(r, df)
    ensures forall row :: row in r ==> (|manufFilter| > 0 ==> row.manuf in manufFilter)
    ensures forall row :: row in r ==> (|dateFilter| > 0 ==> row.date in dateFilter)
    ensures forall row :: multiset(r)[row] == if MatchesMain(manufFilter, dateFilter, row) then multiset(df)[row] else 0
    ensures |manufFilter| == 0 && |dateFilter| == 0 ==> r == df
  {
    var byManuf := if |manufFilter| > 0 then Where(df, ManufIsIn(manufFilter)) else df;
    var byDate := if |dateFilter| > 0 then Where(byManuf, DateIsIn(dateFilter)) else byManuf;
    SubsequenceOfItself(df);
    if |manufFilter| > 0 && |dateFilter| > 0 then
      WhereWhere(df, ManufIsIn(manufFilter), DateIsIn(dateFilter));
      WhereAgree(df, Both(ManufIsIn(manufFilter), DateIsIn(dateFilter)), MainMask(manufFilter, dateFilter));
      byDate
    else if |manufFilter| > 0 then
      WhereAgree(df, ManufIsIn(manufFilter), MainMask(manufFilter, dateFilter));
      byDate
    else if |dateFilter| > 0 then
      WhereAgree(df, DateIsIn(dateFilter), MainMask(manufFilter, dateFilter));
      byDate
    else
      WhereAgree(df, (row: Listing) => true, MainMask(manufFilter, dateFilter));
      WhereKeepsAll(df);
      byDate
  }

  /** A mask that keeps every row leaves the table as it is. */
  lemma {:induction false} WhereKeepsAll(df: seq<Listing>)
    ensures Where(df, (row: Listing) => true) == df
  {
    if df != [] {
      WhereKeepsAll(df[1..]);
      assert df == [df[0]] + df[1..];
    }
  }

  /** Filtering an already filtered table with the same selection changes nothing. */
  lemma ApplyFiltersIdempotent(df: seq<Listing>, manufFilter: seq<string>, dateFilter: seq<int>)
    ensures ApplyFilters(ApplyFilters(df, manufFilter, dateFilter), manufFilter, dateFilter)
         == ApplyFilters(df, manufFilter, dateFilter)
  {
    var mask := MainMask(manufFilter, dateFilter);
    WhereWhere(df, mask, mask);
    WhereAgree(df, Both(mask, mask), mask);
  }

  /** A row passes the bottom chart's date filter. */
  predicate MatchesBottom(dateFilterBottom: seq<int>, row: Listing) {
    |dateFilterBottom| == 0 || row.date in dateFilterBottom
  }

  /**
   * `apply_bottom_filters`: narrows the table to the dates selected for the
   * bottom scatter plot, or leaves it as it is when none is selected. Only the
   * date is looked at.
   */
  function ApplyBottomFilters(df: seq<Listing>, dateFilterBottom: seq<int>): (r: seq<Listing>)
    ensures IsSubsequence(r, df)
    ensures forall row :: row in r ==> (|dateFilterBottom| > 0 ==> row.date in dateFilterBottom)
    ensures forall row :: multiset(r)[row] == if MatchesBottom(dateFilterBottom, row) then multiset(df)[row] else 0
    ensures |dateFilterBottom| == 0 ==> r == df
  {
    if |dateFilterBottom| > 0 then Where(df, DateIsIn(dateFilterBottom))
    else
      SubsequenceOfItself(df);
      df
  }

  /** The bottom filter is the main filter with no manufacturer selected. */
  lemma BottomIsMainWithoutManufacturer(df: seq<Listing>, dateFilterBottom: seq<int>)
    ensures ApplyBottomFilters(df, dateFilterBottom) == ApplyFilters(df, [], dateFilterBottom)
  {
  }

  /**
   * `df.dropna(subset=...)`: keeps exactly the rows in which every column of
   * `subset` has a value, in their original order.
   */
  function DropNa(df: seq<Listing>, subset: seq<Column>): (r: seq<Listing>)
    ensures IsSubsequence(r, df) && |r| <= |df|
    ensures forall row, c :: row in r && c in subset ==> Present(row, c)
    ensures forall row :: (multiset(r)[row] ==
      if AllPresent(row, subset) then multiset(df)[row] else 0)
  {
    forall row ensures NotNa(subset)(row) <==> AllPresent(row, subset) {
      NotNaIsAllPresent(row, subset);
    }
    Where(df, NotNa(subset))
  }

  /** Rows plotted by the top scatter plot: Year, Mileage, Motor Volume and Price present. */
  function CleanTopScatter(filtered: seq<Listing>): (r: seq<Listing>)
    ensures IsSubsequence(r, filtered)
    ensures forall row :: (multiset(r)[row] ==
      if row.year.Some? && row.mileage.Some? && row.motorVolume.Some? && row.price.Some?
      then multiset(filtered)[row] else 0)
  {
    var subset := [Year, Mileage, MotorVolume, Price];
    assert forall row :: AllPresent(row, subset) <==> row.year.Some? && row.mileage.Some? && row.motorVolume.Some? && row.price.Some? by {
      assert subset[1..][1..][1..][1..] == [];
    }
    DropNa(filtered, subset)
  }

  /** Rows of the motor sunburst: Motor Type and Motor Volume present. */
  function CleanMotor(filtered: seq<Listing>): (r: seq<Listing>)
    ensures IsSubsequence(r, filtered)
    ensures forall row :: (multiset(r)[row] ==
      if row.motorType.Some? && row.motorVolume.Some? then multiset(filtered)[row] else 0)
  {
    var subset := [MotorType, MotorVolume];
    assert forall row :: AllPresent(row, subset) <==> row.motorType.Some? && row.motorVolume.Some? by {
      assert subset[1..][1..] == [];
    }
    DropNa(filtered, subset)
  }

  /** Rows of the transmission sunburst: Transmission Type and Transmission Speeds present. */
  function CleanTransmission(filtered: seq<Listing>): (r: seq<Listing>)
    ensures IsSubsequence(r, filtered)
    ensures forall row :: (multiset(r)[row] ==
      if row.transmissionType.Some? && row.transmissionSpeeds.Some? then multiset(filtered)[row] else 0)
  {
    var subset := [TransmissionType, TransmissionSpeeds];
    assert forall row :: AllPresent(row, subset) <==> row.transmissionType.Some? && row.transmissionSpeeds.Some? by {
      assert subset[1..][1..] == [];
    }
    DropNa(filtered, subset)
  }

  /** Rows plotted by the bottom scatter plot: Color, Body Type and Price present. */
  function CleanBottomScatter(filteredBottom: seq<Listing>): (r: seq<Listing>)
    ensures IsSubsequence(r, filteredBottom)
    ensures forall row :: (multiset(r)[row] ==
      if row.color.Some? && row.bodyType.Some? && row.price.Some? then multiset(filteredBottom)[row] else 0)
  {
    var subset := [Color, BodyType, Price];
    assert forall row :: AllPresent(row, subset) <==> row.color.Some? && row.bodyType.Some? && row.price.Some? by {
      assert subset[1..][1..][1..] == [];
    }
    DropNa(filteredBottom, subset)
  }

  /** `sorted(df['Model'].unique())`: every model of the table once, in increasing order. */
  function UniqueModels(df: seq<Listing>): (r: seq<string>)
    ensures StrictlySorted(r, StrLt)
    ensures forall m :: m in r <==> m in ModelSet(df)
    ensures |r| == |ModelSet(df)|
  {
    StrLtIsStrictTotalOrder();
    ModelColumnValues(df);
    SortedUniqueCardinality(ModelColumn(df), StrLt);
    assert (set m | m in ModelColumn(df)) == ModelSet(df);
    SortedUnique(ModelColumn(df), StrLt)
  }

  /** `sorted(df['Manuf'].unique())`: every manufacturer of the table once, in increasing order. */
  function UniqueManufs(df: seq<Listing>): (r: seq<string>)
    ensures StrictlySorted(r, StrLt)
    ensures forall m :: m in r <==> exists row :: row in df && row.manuf == m
  {
    StrLtIsStrictTotalOrder();
    var manufs := Project(df, (row: Listing) => row.manuf);
    assert forall m :: m in manufs <==> exists row :: row in df && row.manuf == m by {
      forall m | exists row :: row in df && row.manuf == m
        ensures m in manufs
      {
        var row :| row in df && row.manuf == m;
        var i :| 0 <= i < |df| && df[i] == row;
        assert manufs[i] == m;
      }
    }
    SortedUnique(manufs, StrLt)
  }

  /** `sorted(df['date'].unique())`: every date of the table once, in increasing order. */
  function UniqueDates(df: seq<Listing>): (r: seq<int>)
    ensures StrictlySorted(r, IntLt)
    ensures forall d :: d in r <==> exists row :: row in df && row.date == d
  {
    IntLtIsStrictTotalOrder();
    var dates := Project(df, (row: Listing) => row.date);
    assert forall d :: d in dates <==> exists row :: row in df && row.date == d by {
      forall d | exists row :: row in df && row.date == d
        ensures d in dates
      {
        var row :| row in df && row.date == d;
        var i :| 0 <= i < |df| && df[i] == row;
        assert dates[i] == d;
      }
    }
    SortedUnique(dates, IntLt)
  }
}
