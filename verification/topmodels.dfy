/**
 * `get_top_models_df`: the 50 most frequent models of the filtered view, one
 * output row per model, ordered by model name, with the count and the
 * minimum, maximum and most frequent values of some columns.
 */
module TopModelStats {
  import opened Order
  import opened Table
  import opened Stats

  /** `value_counts().head(50)` keeps this many models. */
  const TopN: nat := 50

  /** `df['Model'].value_counts()[m]`: the number of rows of model `m`. */
  function ModelCount(df: seq<Listing>, m: string): nat {
    if df == [] then 0
    else (if df[0].model == m then 1 else 0) + ModelCount(df[1..], m)
  }

  /** The count of a model is the size of its `groupby('Model')` group. */
  lemma {:induction false} ModelCountIsGroupSize(df: seq<Listing>, m: string)
    ensures ModelCount(df, m) == |Where(df, ModelIs(m))|
  {
    if df != [] {
      ModelCountIsGroupSize(df[1..], m);
    }
  }

  /** Counts never increase along `ms`. */
  predicate ByCountDescending(df: seq<Listing>, ms: seq<string>) {
    forall i, j :: 0 <= i < j < |ms| ==> ModelCount(df, ms[i]) >= ModelCount(df, ms[j])
  }

  /** Places `m` in a list ordered by descending count, ahead of the models counted no more. */
  function InsertByCount(df: seq<Listing>, m: string, ranked: seq<string>): (r: seq<string>)
    requires ByCountDescending(df, ranked) && Distinct(ranked) && m !in ranked
    ensures ByCountDescending(df, r) && Distinct(r)
    ensures forall x :: x in r <==> x == m || x in ranked
    ensures |r| == |ranked| + 1
  {
    if ranked == [] || ModelCount(df, m) >= ModelCount(df, ranked[0]) then
      [m] + ranked
    else
      var rest := InsertByCount(df, m, ranked[1..]);
      assert forall k :: 0 <= k < |rest| ==> ModelCount(df, ranked[0]) >= ModelCount(df, rest[k]) by {
        forall k | 0 <= k < |rest| ensures ModelCount(df, ranked[0]) >= ModelCount(df, rest[k]) {
          assert rest[k] in rest;
        }
      }
      assert ranked[0] !in rest by {
        assert ranked == [ranked[0]] + ranked[1..];
      }
      [ranked[0]] + rest
  }

  /** Orders distinct models by descending count, keeping the given order among equal counts. */
  function RankByCount(df: seq<Listing>, ms: seq<string>): (r: seq<string>)
    requires Distinct(ms)
    ensures ByCountDescending(df, r) && Distinct(r)
    ensures forall x :: x in r <==> x in ms
    ensures |r| == |ms|
  {
    if ms == [] then []
    else
      assert ms == [ms[0]] + ms[1..];
      InsertByCount(df, ms[0], RankByCount(df, ms[1..]))
  }

  /**
   * `df['Model'].value_counts().index`: every model of the table once, most
   * frequent first. Equal counts are ranked by name.
   */
  function ValueCountsIndex(df: seq<Listing>): (r: seq<string>)
    ensures ByCountDescending(df, r) && Distinct(r)
    ensures forall m :: m in r <==> m in ModelSet(df)
    ensures |r| == |ModelSet(df)|
  {
    StrLtIsStrictTotalOrder();
    ModelColumnValues(df);
    var r := RankByCount(df, SortedUnique(ModelColumn(df), StrLt));
    DistinctCardinality(r);
    assert (set m | m in r) == ModelSet(df);
    r
  }

  /** In a list ranked by descending count, a model of a prefix counts no less than one after it. */
  lemma PrefixOfRanking(df: seq<Listing>, ranked: seq<string>, k: nat)
    requires ByCountDescending(df, ranked) && k <= |ranked|
    ensures forall a, b :: a in ranked[..k] && b in ranked && b !in ranked[..k] ==> ModelCount(df, a) >= ModelCount(df, b)
  {
    forall a, b | a in ranked[..k] && b in ranked && b !in ranked[..k]
      ensures ModelCount(df, a) >= ModelCount(df, b)
    {
      var i :| 0 <= i < k && ranked[..k][i] == a;
      var j :| 0 <= j < |ranked| && ranked[j] == b;
      assert forall t :: 0 <= t < k ==> ranked[t] in ranked[..k] by {
        forall t | 0 <= t < k ensures ranked[t] in ranked[..k] {
          assert ranked[..k][t] == ranked[t];
        }
      }
    }
  }

  /**
   * `value_counts().head(50).index`: the `TopN` most frequent models (all of them
   * when there are fewer). No model left out is more frequent than one kept.
   */
  function TopModels(df: seq<Listing>): (r: seq<string>)
    ensures |r| == if |ModelSet(df)| < TopN then |ModelSet(df)| else TopN
    ensures Distinct(r)
    ensures forall m :: m in r ==> m in ModelSet(df)
    ensures forall a, b :: a in r && b in ModelSet(df) && b !in r ==> ModelCount(df, a) >= ModelCount(df, b)
  {
    var ranked := ValueCountsIndex(df);
    var k := if |ranked| < TopN then |ranked| else TopN;
    PrefixOfRanking(df, ranked, k);
    ranked[..k]
  }

  /** One row of the top-models table. */
  datatype ModelStats = ModelStats(
    model: string,
    count: nat,
    maxPrice: Option<int>,
    minPrice: Option<int>,
    maxMileage: Option<int>,
    minMileage: Option<int>,
    maxYear: Option<int>,
    minYear: Option<int>,
    mostPopularYear: Option<int>,
    mostPopularColor: Option<string>,
    mostPopularMotorVolume: Option<int>)

  /** Both ends of a range are present or both missing, and the low one is not above the high one. */
  predicate OrderedRange(lo: Option<int>, hi: Option<int>) {
    lo.Some? == hi.Some? && (lo.Some? ==> lo.value <= hi.value)
  }

  /** Min <= Max for price, mileage and year, and the most popular year lies between Min and Max Year. */
  predicate RangesConsistent(g: ModelStats) {
    && OrderedRange(g.minPrice, g.maxPrice)
    && OrderedRange(g.minMileage, g.maxMileage)
    && OrderedRange(g.minYear, g.maxYear)
    && OrderedRange(g.minYear, g.mostPopularYear)
    && OrderedRange(g.mostPopularYear, g.maxYear)
  }

  /** The `agg(...)` of one `groupby('Model')` group: the rows `group` of `model`. */
  function Aggregate(model: string, group: seq<Listing>): (g: ModelStats)
    ensures g.model == model && g.count == |group|
    ensures IsGreatest(Prices(group), g.maxPrice) && IsLeast(Prices(group), g.minPrice)
    ensures IsGreatest(Mileages(group), g.maxMileage) && IsLeast(Mileages(group), g.minMileage)
    ensures IsGreatest(Years(group), g.maxYear) && IsLeast(Years(group), g.minYear)
    ensures IsMode(Years(group), g.mostPopularYear, IntLt)
    ensures IsMode(Colors(group), g.mostPopularColor, StrLt)
    ensures IsMode(MotorVolumes(group), g.mostPopularMotorVolume, IntLt)
    ensures RangesConsistent(g)
  {
    IntLtIsStrictTotalOrder();
    StrLtIsStrictTotalOrder();
    var g := ModelStats(
      model, |group|,
      MaxOf(Prices(group)), MinOf(Prices(group)),
      MaxOf(Mileages(group)), MinOf(Mileages(group)),
      MaxOf(Years(group)), MinOf(Years(group)),
      Mode(Years(group), IntLt), Mode(Colors(group), StrLt), Mode(MotorVolumes(group), IntLt));
    LeastAtMostGreatest(Prices(group), g.minPrice, g.maxPrice);
    LeastAtMostGreatest(Mileages(group), g.minMileage, g.maxMileage);
    LeastAtMostGreatest(Years(group), g.minYear, g.maxYear);
    ModeWithinRange(Years(group), g.minYear, g.mostPopularYear, g.maxYear);
    g
  }

  /** The models left after restricting to the top models are the top models that occur. */
  lemma ModelsOfTopRows(df: seq<Listing>, top: seq<string>)
    ensures forall m :: m in ModelSet(Where(df, ModelIsIn(top))) <==> m in top && m in ModelSet(df)
  {
    var dfTop := Where(df, ModelIsIn(top));
    forall m | m in top && m in ModelSet(df)
      ensures m in ModelSet(dfTop)
    {
      var row :| row in df && row.model == m;
      assert multiset(dfTop)[row] == multiset(df)[row];
      assert row in dfTop;
    }
  }

  /**
   * The keys of `df[df['Model'].isin(top)].groupby('Model')`, in the sorted order
   * groupby uses: each model of `top` once, when all of them occur in `df`.
   */
  function GroupKeys(df: seq<Listing>, top: seq<string>): (keys: seq<string>)
    requires Distinct(top) && forall m :: m in top ==> m in ModelSet(df)
    ensures StrictlySorted(keys, StrLt) && Distinct(keys)
    ensures forall m :: m in keys <==> m in top
    ensures |keys| == |top|
  {
    var dfTop := Where(df, ModelIsIn(top));
    StrLtIsStrictTotalOrder();
    ModelsOfTopRows(df, top);
    ModelColumnValues(dfTop);
    var keys := SortedUnique(ModelColumn(dfTop), StrLt);
    DistinctCardinality(keys);
    DistinctCardinality(top);
    assert (set m | m in keys) == (set m | m in top);
    keys
  }

  /**
   * Restricting to the models of `top` and then to one of them, `m`, leaves all
   * rows of `m`, at least one when `m` occurs in `df`.
   */
  lemma GroupOfTopModel(df: seq<Listing>, top: seq<string>, m: string)
    requires m in top && m in ModelSet(df)
    ensures Where(Where(df, ModelIsIn(top)), ModelIs(m)) == Where(df, ModelIs(m))
    ensures ModelCount(df, m) == |Where(df, ModelIs(m))| >= 1
  {
    WhereWhere(df, ModelIsIn(top), ModelIs(m));
    WhereAgree(df, Both(ModelIsIn(top), ModelIs(m)), ModelIs(m));
    ModelCountIsGroupSize(df, m);
    var row :| row in df && row.model == m;
    assert row in Where(df, ModelIs(m));
  }

  /** Rows that follow sorted keys, one per key, are sorted and hold each model of `top` once. */
  lemma RowPerKey(top: seq<string>, keys: seq<string>, r: seq<ModelStats>)
    requires StrictlySorted(keys, StrLt)
    requires forall m :: m in keys <==> m in top
    requires |r| == |keys| && forall i :: 0 <= i < |r| ==> r[i].model == keys[i]
    ensures forall i, j :: 0 <= i < j < |r| ==> StrLt(r[i].model, r[j].model)
    ensures forall i :: 0 <= i < |r| ==> r[i].model in top
    ensures forall m :: m in top ==> exists i :: 0 <= i < |r| && r[i].model == m
  {
    forall i | 0 <= i < |r| ensures r[i].model in top {
      assert keys[i] in keys;
    }
    forall m | m in top ensures exists i :: 0 <= i < |r| && r[i].model == m {
      var i :| 0 <= i < |keys| && keys[i] == m;
      assert r[i].model == m;
    }
  }

  /**
   * Each group of the top rows aggregates to the same row as all rows of its
   * model, and that model's count is at least one.
   */
  lemma AggregatesOfTopGroups(df: seq<Listing>, top: seq<string>, keys: seq<string>, r: seq<ModelStats>)
    requires forall m :: m in top ==> m in ModelSet(df)
    requires forall m :: m in keys ==> m in top
    requires |r| == |keys|
    requires forall i :: 0 <= i < |r| ==> r[i] == Aggregate(keys[i], Where(Where(df, ModelIsIn(top)), ModelIs(keys[i])))
    ensures forall i :: 0 <= i < |r| ==> r[i] == Aggregate(r[i].model, Where(df, ModelIs(r[i].model)))
    ensures forall i :: 0 <= i < |r| ==> r[i].count == ModelCount(df, r[i].model) >= 1
  {
    forall i | 0 <= i < |r|
      ensures r[i] == Aggregate(r[i].model, Where(df, ModelIs(r[i].model)))
      ensures r[i].count == ModelCount(df, r[i].model) >= 1
    {
      assert keys[i] in keys;
      GroupOfTopModel(df, top, keys[i]);
    }
  }

  /**
   * `df[df['Model'].isin(top)].groupby('Model').agg(...)`: one row per model of
   * `top`, ordered by model name, each aggregating all rows of its model.
   */
  function AggregateTop(df: seq<Listing>, top: seq<string>): (r: seq<ModelStats>)
    requires Distinct(top) && forall m :: m in top ==> m in ModelSet(df)
    ensures |r| == |top|
    ensures forall i, j :: 0 <= i < j < |r| ==> StrLt(r[i].model, r[j].model)
    ensures forall i :: 0 <= i < |r| ==> r[i].model in top
    ensures forall m :: m in top ==> exists i :: 0 <= i < |r| && r[i].model == m
    ensures forall i :: 0 <= i < |r| ==> r[i] == Aggregate(r[i].model, Where(df, ModelIs(r[i].model)))
    ensures forall i :: 0 <= i < |r| ==> r[i].count == ModelCount(df, r[i].model) >= 1
  {
    var dfTop := Where(df, ModelIsIn(top));
    var keys := GroupKeys(df, top);
    var r := seq(|keys|, i requires 0 <= i < |keys| => Aggregate(keys[i], Where(dfTop, ModelIs(keys[i]))));
    RowPerKey(top, keys, r);
    AggregatesOfTopGroups(df, top, keys, r);
    r
  }

  /**
   * `get_top_models_df(df)`: the aggregate rows of the `TopN` most frequent
   * models, ordered by model name.
   */
  function GetTopModels(df: seq<Listing>): (r: seq<ModelStats>)
    ensures |r| == if |ModelSet(df)| < TopN then |ModelSet(df)| else TopN
    ensures forall i, j :: 0 <= i < j < |r| ==> StrLt(r[i].model, r[j].model)
    ensures forall i :: 0 <= i < |r| ==> r[i].model in TopModels(df)
    ensures forall m :: m in TopModels(df) ==> exists i :: 0 <= i < |r| && r[i].model == m
    ensures forall i :: 0 <= i < |r| ==> r[i] == Aggregate(r[i].model, Where(df, ModelIs(r[i].model)))
    ensures forall i :: 0 <= i < |r| ==> r[i].count == ModelCount(df, r[i].model) >= 1
  {
    AggregateTop(df, TopModels(df))
  }

  /**
   * The top-models table has at most 50 rows, and every row's model occurs in
   * `df` at least as often as any model left out of the table.
   */
  lemma TopModelsRanking(df: seq<Listing>)
    ensures |GetTopModels(df)| <= TopN
    ensures forall i, m :: 0 <= i < |GetTopModels(df)| && m in ModelSet(df) && m !in TopModels(df)
                           ==> GetTopModels(df)[i].count >= ModelCount(df, m)
    ensures forall i :: 0 <= i < |GetTopModels(df)| ==> GetTopModels(df)[i].model in ModelSet(df)
  {
  }

  /** The sum of the `Count` column. */
  function SumCounts(r: seq<ModelStats>): nat {
    if r == [] then 0 else r[0].count + SumCounts(r[1..])
  }

  /** The `Model` column of the top-models table. */
  function StatsModels(r: seq<ModelStats>): seq<string> {
    seq(|r|, i requires 0 <= i < |r| => r[i].model)
  }

  /** The number of rows of `df` whose model is one of `ms`: `df['Model'].isin(ms).sum()`. */
  function RowsOfModels(df: seq<Listing>, ms: seq<string>): (n: nat)
    ensures n <= |df|
  {
    if df == [] then 0
    else (if df[0].model in ms then 1 else 0) + RowsOfModels(df[1..], ms)
  }

  /** The rows of a model not among `ms` add to the rows of `ms`. */
  lemma {:induction false} RowsOfOneMore(df: seq<Listing>, m: string, ms: seq<string>)
    requires m !in ms
    ensures RowsOfModels(df, [m] + ms) == ModelCount(df, m) + RowsOfModels(df, ms)
  {
    if df != [] {
      RowsOfOneMore(df[1..], m, ms);
    }
  }

  /** Rows that count distinct models in `df` add up to the number of rows of those models. */
  lemma {:induction false} SumOfGroupCounts(df: seq<Listing>, r: seq<ModelStats>)
    requires forall i :: 0 <= i < |r| ==> r[i].count == ModelCount(df, r[i].model)
    requires forall i, j :: 0 <= i < j < |r| ==> r[i].model != r[j].model
    ensures SumCounts(r) == RowsOfModels(df, StatsModels(r))
  {
    if r == [] {
      RowsOfNoModel(df);
    } else {
      SumOfGroupCounts(df, r[1..]);
      assert StatsModels(r) == [r[0].model] + StatsModels(r[1..]);
      RowsOfOneMore(df, r[0].model, StatsModels(r[1..]));
    }
  }

  lemma {:induction false} RowsOfNoModel(df: seq<Listing>)
    ensures RowsOfModels(df, []) == 0
  {
    if df != [] {
      RowsOfNoModel(df[1..]);
    }
  }

  /** Lists holding the same models select the same number of rows. */
  lemma {:induction false} RowsOfSameModels(df: seq<Listing>, ms: seq<string>, ns: seq<string>)
    requires forall m :: m in ms <==> m in ns
    ensures RowsOfModels(df, ms) == RowsOfModels(df, ns)
  {
    if df != [] {
      RowsOfSameModels(df[1..], ms, ns);
    }
  }

  /** Rows for exactly the models of `top`, once each, count all rows of those models together. */
  lemma SumOfTopCounts(df: seq<Listing>, top: seq<string>, r: seq<ModelStats>)
    requires forall i :: 0 <= i < |r| ==> r[i].count == ModelCount(df, r[i].model)
    requires forall i, j :: 0 <= i < j < |r| ==> StrLt(r[i].model, r[j].model)
    requires forall i :: 0 <= i < |r| ==> r[i].model in top
    requires forall m :: m in top ==> exists i :: 0 <= i < |r| && r[i].model == m
    ensures SumCounts(r) == RowsOfModels(df, top)
  {
    forall i, j | 0 <= i < j < |r| ensures r[i].model != r[j].model {
      StrLtIrreflexive(r[i].model);
    }
    SumOfGroupCounts(df, r);
    forall m | m in StatsModels(r) ensures m in top {
      var i :| 0 <= i < |r| && StatsModels(r)[i] == m;
    }
    forall m | m in top ensures m in StatsModels(r) {
      var i :| 0 <= i < |r| && r[i].model == m;
      assert StatsModels(r)[i] == m;
    }
    RowsOfSameModels(df, StatsModels(r), top);
  }

  /**
   * The counts of the top-models table add up to the number of rows of the top
   * models, which is at most the number of rows of the filtered view.
   */
  lemma TopCountsBounded(df: seq<Listing>)
    ensures SumCounts(GetTopModels(df)) == RowsOfModels(df, TopModels(df)) <= |df|
  {
    SumOfTopCounts(df, TopModels(df), GetTopModels(df));
  }
}
