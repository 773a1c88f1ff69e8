/**
 * One run of the script for a serving size and a category selection
 * (glycemic_load.py, lines 60 and 92-237): either the warning, or the chart
 * points, the sorted table and the x-axis extent.
 */
module Dashboard {
  import opened Wrappers
  import opened Catalog
  import opened Selection
  import opened Serving
  import opened Table
  import opened Chart
  import opened Records

  const NoFoodsWarning: string := "No foods selected. Please choose at least one food category."

  /** What the page shows below the explanations. */
  datatype View =
    | Warning(message: string)
    | ChartAndTable(points: seq<Point>, table: seq<Point>, xMax: real)

  /** The `if filtered_ingredients:` branch and its `else`, on values. */
  function Present(filtered: seq<Food>, serving: int): View
  {
    if filtered == [] then Warning(NoFoodsWarning)
    else
      var points := PointsFor(filtered, serving);
      ChartAndTable(points, SortByGl(points), XAxisMax(points))
  }

  /** The page for `catalog`, computed from values. */
  function Render(catalog: seq<Food>, serving: int, selected: seq<string>): View
  {
    Present(Filter(catalog, selected), serving)
  }

  /** The warning is shown exactly when no catalog item has a selected
      category; with nothing selected it is always shown. */
  lemma WarningIff(catalog: seq<Food>, serving: int, selected: seq<string>)
    ensures Render(catalog, serving, selected).Warning? <==>
      forall f :: f in catalog ==> f.category !in selected
    ensures selected == [] ==> Render(catalog, serving, selected) == Warning(NoFoodsWarning)
  {
    FilterEmptyIff(catalog, selected);
  }

  /** When the chart is drawn, it plots one point per selected food in
      catalog order, the table holds the same rows in non-decreasing load
      order, and every point lies inside the x-axis range. */
  lemma ChartContents(catalog: seq<Food>, serving: int, selected: seq<string>)
    requires ValidServing(serving)
    requires Filter(catalog, selected) != []
    ensures var v := Render(catalog, serving, selected);
      && v.ChartAndTable?
      && v.points == PointsFor(Filter(catalog, selected), serving)
      && SortedByGl(v.table)
      && multiset(v.table) == multiset(v.points)
      && v.xMax >= 90.0
      && forall p :: p in v.points ==> 0.0 <= p.carbsPerServing && p.carbsPerServing + 10.0 <= v.xMax
  {
    var filtered := Filter(catalog, selected);
    var points := PointsFor(filtered, serving);
    forall p | p in points ensures p.carbsPerServing >= 0.0 {
      var i :| 0 <= i < |points| && points[i] == p;
      FiguresNonNegative(filtered[i], serving);
    }
  }

  /** With the selector's default (every category), the chart plots the
      whole catalog. */
  lemma DefaultSelectionShowsCatalog(serving: int)
    ensures Render(Ingredients, serving, CategoryOptions) ==
      var points := PointsFor(Ingredients, serving);
      ChartAndTable(points, SortByGl(points), XAxisMax(points))
  {
    CatalogCategories();
    FilterEveryCategory(Ingredients);
  }

  /** One row of the plot data, read from a record the loop has updated. */
  function PointOf(r: FoodRecord, serving: int): Point
    reads r
    requires r.HasServing(serving)
  {
    Point(r.name, r.category, r.gi, r.carbsPerServing.value, r.gl.value)
  }

  /** The plot data read back from the records once the loop has added the
      figures for `serving` to them. */
  function Snapshot(rs: seq<FoodRecord>, serving: int): (ps: seq<Point>)
    reads rs
    requires forall i :: 0 <= i < |rs| ==> rs[i].HasServing(serving)
    ensures |ps| == |rs|
    ensures forall i :: 0 <= i < |rs| ==> ps[i] == PointOf(rs[i], serving)
  {
    if rs == [] then [] else [PointOf(rs[0], serving)] + Snapshot(rs[1..], serving)
  }

  /** Once every record carries the figures for `serving`, reading them back
      gives the points computed from the records' entries. */
  lemma SnapshotOfUpdated(rs: seq<FoodRecord>, serving: int)
    requires forall i :: 0 <= i < |rs| ==> rs[i].HasServing(serving)
    ensures Snapshot(rs, serving) == PointsFor(Entries(rs), serving)
  {
  }

  /** One run over the catalog's records: filter, add the per-serving
      figures to the selected records in place, then show the warning or the
      chart and table. The result is the value-level page for the catalog as
      it was; selected records gain the figures and nothing else changes. */
  method Run(catalog: seq<FoodRecord>, serving: int, selected: seq<string>) returns (view: View)
    requires ValidServing(serving)
    modifies catalog
    ensures view == Render(old(Entries(catalog)), serving, selected)
    ensures forall r :: r in catalog ==> r.Entry() == old(r.Entry())
    ensures forall r :: r in catalog && r.category in selected ==> r.HasServing(serving)
    ensures forall r :: r in catalog && r.category !in selected ==>
      r.carbsPerServing == old(r.carbsPerServing) && r.gl == old(r.gl)
  {
    ghost var entries := Entries(catalog);
    var filtered := FilterRecords(catalog, selected);
    ghost var kept := Entries(filtered);
    assert kept == Filter(entries, selected);
    ApplyServing(filtered, serving);
    view := Show(filtered, serving);
  }

  /** Lines 97-237 over the updated records: the warning when nothing was
      selected, otherwise the chart points read back from the records, the
      table sorted by load and the x-axis extent. */
  method Show(filtered: seq<FoodRecord>, serving: int) returns (view: View)
    requires forall i :: 0 <= i < |filtered| ==> filtered[i].HasServing(serving)
    ensures view == Present(Entries(filtered), serving)
  {
    if |filtered| > 0 {
      var points := Snapshot(filtered, serving);
      SnapshotOfUpdated(filtered, serving);
      view := ChartAndTable(points, SortByGl(points), XAxisMax(points));
    } else {
      view := Warning(NoFoodsWarning);
    }
  }

  /** A whole run of the script: build the catalog's dictionaries, then
      filter, update and show them. */
  method Page(serving: int, selected: seq<string>) returns (view: View)
    requires ValidServing(serving)
    ensures view == Render(Ingredients, serving, selected)
  {
    var catalog := NewCatalog();
    forall i | 0 <= i < |catalog| ensures fresh(catalog[i]) {
      assert catalog[i] in catalog;
    }
    view := Run(catalog, serving, selected);
  }
}
