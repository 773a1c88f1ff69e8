/**
 * The data table's row order (glycemic_load.py, line 106): ascending by
 * glycemic load. pandas' default sort is not stable, so only the order of
 * the loads and the set of rows are promised, not the order among ties.
 */
module Table {
  import opened Serving

  predicate SortedByGl(s: seq<Point>)
  {
    forall i, j :: 0 <= i < j < |s| ==> s[i].gl <= s[j].gl
  }

  /** Every row of `s` has a load of at least `g`. */
  predicate AllAtLeast(g: real, s: seq<Point>)
  {
    forall x :: x in s ==> g <= x.gl
  }

  /** A lower bound on the loads survives adding a row above it. */
  lemma AtLeastAfterAdding(g: real, p: Point, u: seq<Point>, t: seq<Point>)
    requires AllAtLeast(g, u) && g <= p.gl
    requires multiset(t) == multiset(u) + multiset{p}
    ensures AllAtLeast(g, t)
  {
    forall x | x in t ensures g <= x.gl {
      assert x in multiset(t);
      assert x == p || x in multiset(u);
    }
  }

  /** A row at or below every load of a sorted list can go in front of it. */
  lemma SortedCons(x: Point, t: seq<Point>)
    requires SortedByGl(t) && AllAtLeast(x.gl, t)
    ensures SortedByGl([x] + t)
  {
    forall i, j | 0 <= i < j < |[x] + t| ensures ([x] + t)[i].gl <= ([x] + t)[j].gl {
      if i == 0 {
        assert ([x] + t)[j] == t[j - 1] && t[j - 1] in t;
      } else {
        assert ([x] + t)[i] == t[i - 1] && ([x] + t)[j] == t[j - 1];
      }
    }
  }

  /** The rows after the first of a sorted list are bounded below by it. */
  lemma TailAtLeastHead(s: seq<Point>)
    requires SortedByGl(s) && s != []
    ensures SortedByGl(s[1..]) && AllAtLeast(s[0].gl, s[1..])
  {
    forall x | x in s[1..] ensures s[0].gl <= x.gl {
      var j :| 0 <= j < |s[1..]| && s[1..][j] == x;
      assert s[j + 1] == x;
    }
  }

  /** The step of the insertion past the head `s[0]`. */
  lemma InsertPastHead(p: Point, s: seq<Point>, t: seq<Point>)
    requires SortedByGl(s) && s != [] && s[0].gl < p.gl
    requires SortedByGl(t) && multiset(t) == multiset(s[1..]) + multiset{p}
    ensures SortedByGl([s[0]] + t)
    ensures multiset([s[0]] + t) == multiset(s) + multiset{p}
  {
    TailAtLeastHead(s);
    AtLeastAfterAdding(s[0].gl, p, s[1..], t);
    SortedCons(s[0], t);
    assert s == [s[0]] + s[1..];
  }

  /** Puts `p` in front of the first row with a larger load. */
  function InsertByGl(p: Point, s: seq<Point>): (r: seq<Point>)
    requires SortedByGl(s)
    ensures SortedByGl(r)
    ensures multiset(r) == multiset(s) + multiset{p}
  {
    if s == [] || p.gl <= s[0].gl then
      assert AllAtLeast(p.gl, s) by {
        if s != [] {
          TailAtLeastHead(s);
          assert s == [s[0]] + s[1..];
        }
      }
      SortedCons(p, s);
      [p] + s
    else
      TailAtLeastHead(s);
      var t := InsertByGl(p, s[1..]);
      InsertPastHead(p, s, t);
      [s[0]] + t
  }

  /** `df.sort_values("Glycemic Load", ascending=True)`: the rows in
      non-decreasing order of glycemic load, each row kept exactly as often
      as it occurs. */
  function SortByGl(s: seq<Point>): (r: seq<Point>)
    ensures SortedByGl(r)
    ensures multiset(r) == multiset(s)
  {
    if s == [] then []
    else
      assert s == [s[0]] + s[1..];
      InsertByGl(s[0], SortByGl(s[1..]))
  }
}
