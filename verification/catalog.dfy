/**
 * The fixed food catalog of the dashboard and the list of category options
 * derived from it (glycemic_load.py, lines 18-50).
 */
module Catalog {

  /** One catalog entry: a food, its glycemic index, its grams of
      carbohydrate per 100 g and the category it is filed under. */
  datatype Food = Food(name: string, gi: nat, carbs: nat, category: string)

  /** The hard-coded catalog, in source order (the commented-out
      "Skimmed milk" entry is not part of it). */
  const Ingredients: seq<Food> := [
    Food("White bread", 75, 49, "Baked goods"),
    Food("Whole grain bread", 58, 43, "Baked goods"),
    Food("Sourdough bread", 54, 49, "Baked goods"),

    Food("Rice (white)", 73, 28, "Grains and pasta"),
    Food("Pasta", 53, 25, "Grains and pasta"),
    Food("Boiled rolled oats", 60, 60, "Grains and pasta"),

    Food("Boiled Potato", 82, 17, "Vegetables"),
    Food("Baked Potato", 111, 17, "Vegetables"),
    Food("Sweet potato", 63, 20, "Vegetables"),

    Food("Apple", 36, 14, "Fruits"),
    Food("Banana", 51, 23, "Fruits"),
    Food("Orange", 43, 12, "Fruits"),

    Food("Kidney beans", 35, 60, "Legumes"),
    Food("Lentils", 32, 20, "Legumes"),
    Food("Chickpeas", 28, 27, "Legumes"),

    Food("Milk chocolate", 49, 59, "Sweets"),
    Food("90% dark chocolate", 23, 14, "Sweets"),
    Food("Ice cream", 57, 24, "Sweets"),
    Food("Honey", 61, 80, "Sweets"),
    Food("White sugar", 64, 100, "Sweets"),

    Food("Plain yogurt", 27, 6, "Dairies")
  ]

  /** The category options in the order the selector shows them. */
  const CategoryOptions: seq<string> :=
    ["Baked goods", "Dairies", "Fruits", "Grains and pasta", "Legumes", "Sweets", "Vegetables"]

  // ---------------------------------------------------------------------------
  // String order: Python compares strings code point by code point, and a
  // proper prefix sorts before the longer string.

  predicate StrLess(a: string, b: string)
  {
    if a == [] then b != []
    else if b == [] then false
    else a[0] < b[0] || (a[0] == b[0] && StrLess(a[1..], b[1..]))
  }

  lemma {:induction false} StrLessIrreflexive(a: string)
    ensures !StrLess(a, a)
  {
    if a != [] {
      StrLessIrreflexive(a[1..]);
    }
  }

  lemma {:induction false} StrLessTransitive(a: string, b: string, c: string)
    requires StrLess(a, b) && StrLess(b, c)
    ensures StrLess(a, c)
  {
    if a != [] && b != [] && c != [] && a[0] == b[0] == c[0] {
      StrLessTransitive(a[1..], b[1..], c[1..]);
    }
  }

  /** Any two distinct strings are ordered one way or the other. */
  lemma {:induction false} StrLessTotal(a: string, b: string)
    requires a != b
    ensures StrLess(a, b) || StrLess(b, a)
  {
    if a != [] && b != [] && a[0] == b[0] {
      assert a == [a[0]] + a[1..] && b == [b[0]] + b[1..];
      StrLessTotal(a[1..], b[1..]);
    }
  }

  // ---------------------------------------------------------------------------
  // sorted(set(item["category"] for item in ingredients))

  predicate StrictlyAscending(s: seq<string>)
  {
    forall i, j :: 0 <= i < j < |s| ==> StrLess(s[i], s[j])
  }

  /** Adds `c` to a strictly ascending list, unless it is already there. */
  function InsertCategory(c: string, s: seq<string>): (r: seq<string>)
    requires StrictlyAscending(s)
    ensures StrictlyAscending(r)
    ensures forall x :: x in r <==> x == c || x in s
  {
    if s == [] then [c]
    else if c == s[0] then s
    else if StrLess(c, s[0]) then
      assert forall j :: 0 < j < |s| ==> StrLess(c, s[j]) by {
        forall j | 0 < j < |s| ensures StrLess(c, s[j]) {
          StrLessTransitive(c, s[0], s[j]);
        }
      }
      [c] + s
    else
      StrLessTotal(c, s[0]);
      var t := InsertCategory(c, s[1..]);
      assert forall x :: x in t ==> StrLess(s[0], x) by {
        forall x | x in t ensures StrLess(s[0], x) {
          if x != c {
            var j :| 0 <= j < |s[1..]| && s[1..][j] == x;
            assert s[j + 1] == x;
          }
        }
      }
      [s[0]] + t
  }

  /** The distinct categories of `items`, in ascending order. */
  function Categories(items: seq<Food>): (r: seq<string>)
    ensures StrictlyAscending(r)
    ensures forall c :: c in r <==> exists f :: f in items && f.category == c
  {
    if items == [] then []
    else
      var r := InsertCategory(items[0].category, Categories(items[1..]));
      assert forall f :: f in items <==> f == items[0] || f in items[1..] by {
        assert items == [items[0]] + items[1..];
      }
      r
  }

  /** No element of a strictly ascending list is below its head. */
  lemma HeadIsLeast(s: seq<string>, x: string)
    requires StrictlyAscending(s) && x in s
    ensures !StrLess(x, s[0])
  {
    var j :| 0 <= j < |s| && s[j] == x;
    if j == 0 {
      StrLessIrreflexive(x);
    } else if StrLess(x, s[0]) {
      StrLessTransitive(x, s[0], x);
      StrLessIrreflexive(x);
    }
  }

  /** A strictly ascending list is determined by its elements, so the list
      above is the one a sort of the category set produces. */
  lemma {:induction false} StrictlyAscendingUnique(s: seq<string>, t: seq<string>)
    requires StrictlyAscending(s) && StrictlyAscending(t)
    requires forall x :: x in s <==> x in t
    ensures s == t
  {
    assert s != [] ==> s[0] in t;
    assert t != [] ==> t[0] in s;
    if s != [] && t != [] {
      HeadIsLeast(t, s[0]);
      HeadIsLeast(s, t[0]);
      if s[0] != t[0] { StrLessTotal(s[0], t[0]); }
      // the heads agree, and no later element equals the head
      forall x ensures x in s[1..] <==> x in t[1..] {
        StrLessIrreflexive(x);
        assert s == [s[0]] + s[1..] && t == [t[0]] + t[1..];
        if x in s[1..] {
          var i :| 1 <= i < |s| && s[i] == x;
          assert StrLess(s[0], x) && x in t;
        }
        if x in t[1..] {
          var j :| 1 <= j < |t| && t[j] == x;
          assert StrLess(t[0], x) && x in s;
        }
      }
      StrictlyAscendingUnique(s[1..], t[1..]);
      assert s == [s[0]] + s[1..] && t == [t[0]] + t[1..];
    }
  }

  lemma OptionsAscending()
    ensures StrictlyAscending(CategoryOptions)
  {
    var o := CategoryOptions;
    assert StrLess(o[0], o[1]) && StrLess(o[1], o[2]) && StrLess(o[2], o[3]);
    assert StrLess(o[3], o[4]) && StrLess(o[4], o[5]) && StrLess(o[5], o[6]);
    forall i, j | 0 <= i < j < |o| ensures StrLess(o[i], o[j]) {
      AdjacentToAll(o, i, j);
    }
  }

  /** In a list whose neighbours are ordered, every earlier element is below
      every later one. */
  lemma {:induction false} AdjacentToAll(o: seq<string>, i: nat, j: nat)
    requires forall k :: 0 <= k < |o| - 1 ==> StrLess(o[k], o[k + 1])
    requires i < j < |o|
    ensures StrLess(o[i], o[j])
  {
    if i + 1 < j {
      AdjacentToAll(o, i, j - 1);
      StrLessTransitive(o[i], o[j - 1], o[j]);
    }
  }

  lemma CatalogCategoriesAreOptions(f: Food)
    requires f in Ingredients
    ensures f.category in CategoryOptions
  {
  }

  lemma OptionsOccurInCatalog(c: string)
    requires c in CategoryOptions
    ensures exists f :: f in Ingredients && f.category == c
  {
    var i :| 0 <= i < |CategoryOptions| && CategoryOptions[i] == c;
    var w := [0, 20, 9, 3, 12, 15, 6];
    assert Ingredients[w[i]] in Ingredients && Ingredients[w[i]].category == c;
  }

  /** The selector's options for this catalog. */
  lemma CatalogCategories()
    ensures Categories(Ingredients) == CategoryOptions
  {
    var r := Categories(Ingredients);
    OptionsAscending();
    forall c ensures c in r <==> c in CategoryOptions {
      if c in CategoryOptions {
        OptionsOccurInCatalog(c);
      }
      if c in r {
        var f :| f in Ingredients && f.category == c;
        CatalogCategoriesAreOptions(f);
      }
    }
    StrictlyAscendingUnique(r, CategoryOptions);
  }
}
