/**
 * The catalog as the script holds it: a list of mutable dictionaries. The
 * category filter keeps references to the same dictionaries, and the
 * per-serving loop (glycemic_load.py, lines 92-94) adds two keys to each of
 * them in place.
 */
module Records {
  import opened Wrappers
  import opened Catalog
  import opened Selection
  import opened Serving

  /** One catalog dictionary. The two optional fields are the keys
      "carbs_per_serving" and "gl", absent until the loop adds them. */
  class FoodRecord {
    var name: string
    var gi: nat
    var carbs: nat
    var category: string
    var carbsPerServing: Option<real>
    var gl: Option<real>

    constructor (f: Food)
      ensures Entry() == f
      ensures carbsPerServing == None && gl == None
    {
      name, gi, carbs, category := f.name, f.gi, f.carbs, f.category;
      carbsPerServing, gl := None, None;
    }

    /** The four catalog keys of this dictionary. */
    function Entry(): Food
      reads this
    {
      Food(name, gi, carbs, category)
    }

    /** Both added keys hold the figures for `serving`. */
    predicate HasServing(serving: int)
      reads this
    {
      carbsPerServing == Some(CarbsPerServing(Entry(), serving)) &&
      gl == Some(GlycemicLoad(Entry(), serving))
    }
  }

  /** The catalog entries the records currently hold, in order. */
  function Entries(rs: seq<FoodRecord>): (fs: seq<Food>)
    reads rs
    ensures |fs| == |rs|
    ensures forall i :: 0 <= i < |rs| ==> fs[i] == rs[i].Entry()
  {
    if rs == [] then [] else [rs[0].Entry()] + Entries(rs[1..])
  }

  /** Builds the catalog list: one fresh dictionary per entry, without the
      per-serving keys. */
  method NewCatalog() returns (catalog: seq<FoodRecord>)
    ensures Entries(catalog) == Ingredients
    ensures forall r :: r in catalog ==> fresh(r) && r.carbsPerServing == None && r.gl == None
  {
    catalog := [];
    for i := 0 to |Ingredients|
      invariant |catalog| == i
      invariant forall j :: 0 <= j < i ==> catalog[j].Entry() == Ingredients[j]
      invariant forall r :: r in catalog ==> fresh(r) && r.carbsPerServing == None && r.gl == None
    {
      var r := new FoodRecord(Ingredients[i]);
      catalog := catalog + [r];
    }
  }

  /** The filter comprehension over the dictionaries: it keeps references to
      the catalog's own records, and the entries they hold are those the
      value-level filter keeps. */
  function FilterRecords(rs: seq<FoodRecord>, selected: seq<string>): (r: seq<FoodRecord>)
    reads rs
    ensures forall x :: x in r ==> x in rs && x.category in selected
    ensures forall x :: x in rs && x.category in selected ==> x in r
    ensures Entries(r) == Filter(Entries(rs), selected)
  {
    if rs == [] then []
    else
      assert forall x :: x in rs ==> x == rs[0] || x in rs[1..] by {
        assert rs == [rs[0]] + rs[1..];
      }
      assert Entries(rs)[1..] == Entries(rs[1..]);
      var rest := FilterRecords(rs[1..], selected);
      if rs[0].category in selected then [rs[0]] + rest else rest
  }

  /** The per-serving loop: every selected record gains the two figures for
      `serving`; its catalog keys, and every other record, stay as they were. */
  method ApplyServing(filtered: seq<FoodRecord>, serving: int)
    requires ValidServing(serving)
    modifies filtered
    ensures forall r :: r in filtered ==> r.Entry() == old(r.Entry()) && r.HasServing(serving)
    ensures Entries(filtered) == old(Entries(filtered))
  {
    for i := 0 to |filtered|
      invariant forall r :: r in filtered ==> r.Entry() == old(r.Entry())
      invariant forall j :: 0 <= j < i ==> filtered[j].HasServing(serving)
    {
      var item := filtered[i];
      item.carbsPerServing := Some((item.carbs * serving) as real / 100.0);
      item.gl := Some((item.gi * item.carbs * serving) as real / 10000.0);
    }
    forall i | 0 <= i < |filtered| ensures Entries(filtered)[i] == old(Entries(filtered))[i] {
      assert filtered[i] in filtered;
    }
  }
}
