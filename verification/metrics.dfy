/**
 * The metrics row of the dashboard, computed over the filtered view: the number
 * of cars and the number of distinct car models.
 */
module Metrics {
  import opened Order
  import opened Table
  import opened Filters

  /**
   * `total_cars = len(filtered_df)`: every row counts once per occurrence, and the
   * count is 0 exactly for an empty view.
   */
  function TotalCars(view: seq<Listing>): (n: nat)
    ensures n == |multiset(view)|
    ensures n == 0 <==> view == []
  {
    |view|
  }

  /**
   * `unique_cars = filtered_df['Model'].nunique()`: never more than the number of
   * cars, 0 exactly when there are none, and as long as the sorted list of the view's models.
   */
  function UniqueCars(view: seq<Listing>): (n: nat)
    ensures n <= TotalCars(view)
    ensures n == 0 <==> TotalCars(view) == 0
    ensures n == |UniqueModels(view)|
  {
    ModelSetBound(view);
    |ModelSet(view)|
  }

  /** A listing with only manufacturer, model, date and price given: the Toyota Corolla and Ford Focus below. */
  function ExampleRow(manuf: string, model: string, date: int, price: int): Listing {
    Listing(manuf, model, None, date, None, None, Some(price), None, None, None, None, None, None)
  }

  /**
   * Selecting the manufacturer "Toyota" in a table of one Toyota Corolla
   * (2023-01-01, day 19358) and one Ford Focus (2023-01-02) keeps exactly the
   * Corolla, so the metrics show one car of one model.
   */
  lemma ToyotaExample()
    ensures var corolla := ExampleRow("Toyota", "Corolla", 19358, 10000);
            var focus := ExampleRow("Ford", "Focus", 19359, 15000);
            var view := ApplyFilters([corolla, focus], ["Toyota"], []);
            view == [corolla] && TotalCars(view) == 1 && UniqueCars(view) == 1
  {
    var corolla := ExampleRow("Toyota", "Corolla", 19358, 10000);
    var focus := ExampleRow("Ford", "Focus", 19359, 15000);
    assert "Ford" != "Toyota" by {
      assert "Ford"[0] != "Toyota"[0];
    }
    assert Where([focus], ManufIsIn(["Toyota"])) == [];
    assert Where([corolla, focus], ManufIsIn(["Toyota"])) == [corolla] by {
      assert [corolla, focus][1..] == [focus];
    }
    assert ModelSet([corolla]) == {"Corolla"};
  }
}
