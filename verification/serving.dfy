/**
 * The per-serving figures (glycemic_load.py, lines 15 and 92-94): the
 * carbohydrate in a serving and its glycemic load, and the record of them
 * that the chart and the table show.
 */
module Serving {
  import opened Catalog

  /** The serving-size slider: 50 g to 500 g in steps of 10 g. */
  predicate ValidServing(serving: int)
  {
    50 <= serving <= 500 && (serving - 50) % 10 == 0
  }

  /** `carbs * serving_size / 100`, with Python's true division. */
  function CarbsPerServing(f: Food, serving: int): real
  {
    (f.carbs * serving) as real / 100.0
  }

  /** `(gi * carbs * serving_size) / 10000`, with Python's true division. */
  function GlycemicLoad(f: Food, serving: int): real
  {
    (f.gi * f.carbs * serving) as real / 10000.0
  }

  /** One plotted food: its name, category and GI with the figures for the
      chosen serving. The table shows the same rows without the category. */
  datatype Point = Point(name: string, category: string, gi: nat, carbsPerServing: real, gl: real)

  /** The point for `f`: its load is the formula shown to the user,
      GI x carbs per serving / 100, and neither figure is negative for a
      serving the slider can produce. */
  function PointFor(f: Food, serving: int): (p: Point)
    ensures p.gl == p.gi as real * p.carbsPerServing / 100.0
    ensures serving >= 0 ==> p.carbsPerServing >= 0.0 && p.gl >= 0.0
    ensures p.name == f.name && p.category == f.category && p.gi == f.gi
  {
    assert serving >= 0 ==> CarbsPerServing(f, serving) >= 0.0 && GlycemicLoad(f, serving) >= 0.0 by {
      if serving >= 0 { FiguresNonNegative(f, serving); }
    }
    Point(f.name, f.category, f.gi, CarbsPerServing(f, serving), GlycemicLoad(f, serving))
  }

  /** The plotted points for `foods`, one per food, in the same order. */
  function PointsFor(foods: seq<Food>, serving: int): (ps: seq<Point>)
    ensures |ps| == |foods|
    ensures forall i :: 0 <= i < |foods| ==> ps[i] == PointFor(foods[i], serving)
  {
    if foods == [] then [] else [PointFor(foods[0], serving)] + PointsFor(foods[1..], serving)
  }

  /** The two figures agree with the formula shown to the user:
      GL = GI x carbs per serving / 100. */
  lemma GlFromCarbsPerServing(f: Food, serving: int)
    ensures GlycemicLoad(f, serving) == f.gi as real * CarbsPerServing(f, serving) / 100.0
  {
  }

  /** A 100 g serving carries exactly the catalog's carbohydrate figure. */
  lemma HundredGramServing(f: Food)
    ensures CarbsPerServing(f, 100) == f.carbs as real
    ensures GlycemicLoad(f, 100) == (f.gi * f.carbs) as real / 100.0
  {
  }

  /** The glycemic load grows in proportion to the serving. */
  lemma GlProportionalToServing(f: Food, serving: int)
    ensures GlycemicLoad(f, serving) == serving as real / 100.0 * GlycemicLoad(f, 100)
  {
  }

  /** A larger serving never has a smaller glycemic load ... */
  lemma GlMonotone(f: Food, s1: int, s2: int)
    requires s1 <= s2
    ensures GlycemicLoad(f, s1) <= GlycemicLoad(f, s2)
  {
    var k := f.gi * f.carbs;
    assert k * s1 <= k * s2 by {
      assert k * (s2 - s1) >= 0;
    }
  }

  /** ... and a strictly larger one when the food has carbohydrate with a
      positive glycemic index. */
  lemma GlStrictlyIncreasing(f: Food, s1: int, s2: int)
    requires s1 < s2 && f.gi > 0 && f.carbs > 0
    ensures GlycemicLoad(f, s1) < GlycemicLoad(f, s2)
  {
    var k := f.gi * f.carbs;
    assert k > 0;
    assert k * s1 < k * s2 by {
      assert k * (s2 - s1) > 0;
    }
  }

  /** Neither figure is negative for a non-negative serving. */
  lemma FiguresNonNegative(f: Food, serving: int)
    requires serving >= 0
    ensures CarbsPerServing(f, serving) >= 0.0
    ensures GlycemicLoad(f, serving) >= 0.0
  {
    assert f.carbs * serving >= 0;
    assert f.gi * f.carbs * serving >= 0;
  }

  /** At a slider serving (a multiple of 10 g) the carbohydrate per serving
      is a whole number of tenths of a gram, so rounding it to one decimal
      leaves it unchanged. */
  lemma OneDecimalAtSlider(f: Food, serving: int)
    requires ValidServing(serving)
    ensures CarbsPerServing(f, serving) == (f.carbs * (serving / 10)) as real / 10.0
  {
    assert serving == 10 * (serving / 10);
  }

  /** White bread at the default 100 g serving. */
  lemma WhiteBreadAtHundred()
    ensures Ingredients[0].name == "White bread"
    ensures CarbsPerServing(Ingredients[0], 100) == 49.0
    ensures GlycemicLoad(Ingredients[0], 100) == 36.75
  {
  }

  /** An apple at a 200 g serving. */
  lemma AppleAtTwoHundred()
    ensures Ingredients[9].name == "Apple"
    ensures CarbsPerServing(Ingredients[9], 200) == 28.0
    ensures GlycemicLoad(Ingredients[9], 200) == 10.08
  {
  }
}
