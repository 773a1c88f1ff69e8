/**
 * The category filter (glycemic_load.py, line 60): the catalog items whose
 * category is among the selected ones, in catalog order.
 */
module Selection {
  import opened Catalog

  /** `[item for item in items if item["category"] in selected]` */
  function Filter(items: seq<Food>, selected: seq<string>): (r: seq<Food>)
    ensures forall f :: f in r <==> f in items && f.category in selected
    ensures |r| <= |items|
  {
    if items == [] then []
    else
      assert forall f :: f in items <==> f == items[0] || f in items[1..] by {
        assert items == [items[0]] + items[1..];
      }
      var rest := Filter(items[1..], selected);
      if items[0].category in selected then [items[0]] + rest else rest
  }

  /** Each item is kept as many times as it occurs in the catalog if its
      category is selected, and never otherwise. */
  lemma {:induction false} FilterCount(items: seq<Food>, selected: seq<string>, f: Food)
    ensures multiset(Filter(items, selected))[f] ==
      if f.category in selected then multiset(items)[f] else 0
  {
    if items != [] {
      FilterCount(items[1..], selected, f);
      assert items == [items[0]] + items[1..];
    }
  }

  /** Filtering commutes with concatenation: the kept items stay in the
      relative order they have in the catalog. */
  lemma {:induction false} FilterConcat(a: seq<Food>, b: seq<Food>, selected: seq<string>)
    ensures Filter(a + b, selected) == Filter(a, selected) + Filter(b, selected)
  {
    if a == [] {
      assert a + b == b;
    } else {
      assert (a + b)[0] == a[0] && (a + b)[1..] == a[1..] + b;
      FilterConcat(a[1..], b, selected);
    }
  }

  /** When every item's category is selected, nothing is dropped. */
  lemma {:induction false} FilterKeepsAll(items: seq<Food>, selected: seq<string>)
    requires forall f :: f in items ==> f.category in selected
    ensures Filter(items, selected) == items
  {
    if items != [] {
      assert items[0] in items;
      FilterKeepsAll(items[1..], selected);
      assert items == [items[0]] + items[1..];
    }
  }

  /** The result is empty exactly when no item's category is selected; in
      particular, selecting nothing keeps nothing. */
  lemma FilterEmptyIff(items: seq<Food>, selected: seq<string>)
    ensures Filter(items, selected) == [] <==> forall f :: f in items ==> f.category !in selected
    ensures selected == [] ==> Filter(items, selected) == []
  {
    var r := Filter(items, selected);
    if r != [] {
      assert r[0] in r;
    }
  }

  /** Selecting every category option (the selector's default) keeps the
      whole catalog, in order. */
  lemma FilterEveryCategory(items: seq<Food>)
    ensures Filter(items, Categories(items)) == items
  {
    FilterKeepsAll(items, Categories(items));
  }

  /** When the selected items form one contiguous block of the catalog,
      the result is exactly that block. */
  lemma FilterBlock(items: seq<Food>, selected: seq<string>, lo: nat, hi: nat)
    requires lo <= hi <= |items|
    requires forall f :: f in items[..lo] ==> f.category !in selected
    requires forall f :: f in items[lo..hi] ==> f.category in selected
    requires forall f :: f in items[hi..] ==> f.category !in selected
    ensures Filter(items, selected) == items[lo..hi]
  {
    var before, block, after := items[..lo], items[lo..hi], items[hi..];
    assert items == before + block + after;
    FilterConcat(before + block, after, selected);
    FilterConcat(before, block, selected);
    FilterEmptyIff(before, selected);
    FilterEmptyIff(after, selected);
    FilterKeepsAll(block, selected);
  }

  // The scenario below is split into three facts about the catalog constant
  // and one use of FilterBlock: proving it in one piece sends the solver into
  // unfolding Filter over the whole literal catalog.

  /** The catalog entries before and after the three legumes. */
  lemma NoLegumesOutside()
    ensures forall f :: f in Ingredients[..12] ==> f.category !in ["Legumes"]
    ensures forall f :: f in Ingredients[15..] ==> f.category !in ["Legumes"]
  {
  }

  /** The three legumes, catalog entries 12 to 14. */
  lemma LegumesBlock()
    ensures Ingredients[12..15] ==
      [Food("Kidney beans", 35, 60, "Legumes"),
       Food("Lentils", 32, 20, "Legumes"),
       Food("Chickpeas", 28, 27, "Legumes")]
    ensures forall f :: f in Ingredients[12..15] ==> f.category in ["Legumes"]
  {
  }

  /** Selecting only "Legumes" from the catalog. */
  lemma LegumesOnly()
    ensures Filter(Ingredients, ["Legumes"]) ==
      [Food("Kidney beans", 35, 60, "Legumes"),
       Food("Lentils", 32, 20, "Legumes"),
       Food("Chickpeas", 28, 27, "Legumes")]
  {
    NoLegumesOutside();
    LegumesBlock();
    FilterBlock(Ingredients, ["Legumes"], 12, 15);
  }
}
