/**
 * The scatter chart's horizontal extent (glycemic_load.py, line 190): from 0
 * to `max(90, max(carbs_per_serving) + 10)`.
 */
module Chart {
  import opened Serving

  /** `max(carbs_per_serving)` over the plotted points. */
  function MaxCarbs(ps: seq<Point>): (m: real)
    requires |ps| > 0
    ensures forall p :: p in ps ==> p.carbsPerServing <= m
    ensures exists p :: p in ps && p.carbsPerServing == m
  {
    if |ps| == 1 then ps[0].carbsPerServing
    else
      var rest := MaxCarbs(ps[1..]);
      assert forall p :: p in ps <==> p == ps[0] || p in ps[1..] by {
        assert ps == [ps[0]] + ps[1..];
      }
      if ps[0].carbsPerServing >= rest then ps[0].carbsPerServing else rest
  }

  /** The upper end of the x-axis range: at least 90 and 10 g past every
      point, and no larger than needed for that. */
  function XAxisMax(ps: seq<Point>): (r: real)
    requires |ps| > 0
    ensures r >= 90.0
    ensures forall p :: p in ps ==> p.carbsPerServing + 10.0 <= r
    ensures r == 90.0 || exists p :: p in ps && r == p.carbsPerServing + 10.0
  {
    var m := MaxCarbs(ps) + 10.0;
    if m > 90.0 then m else 90.0
  }

  /** Points with non-negative carbohydrate all fall inside [0, XAxisMax]. */
  lemma PointsInsideXAxis(ps: seq<Point>)
    requires |ps| > 0
    requires forall p :: p in ps ==> p.carbsPerServing >= 0.0
    ensures forall p :: p in ps ==> 0.0 <= p.carbsPerServing <= XAxisMax(ps)
  {
  }
}
