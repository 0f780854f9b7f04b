/**
 The catalog records the two pages build from the server's JSON: food items, food courts as
 the home page lists them, and raw restaurant records as the status check reads them.
 */
module Catalog {
  import opened Wrappers
  import opened Seqs

  /**
   A dish. `court` is the owning restaurant's name ("" when the record has none); `rating` is
   in tenths of a star, `None` when the record has no usable rating.
   */
  datatype Item = Item(
    id: string,
    name: string,
    court: string,
    category: string,
    price: int,
    available: bool,
    rating: Option<int>)

  /**
   A restaurant record as the server sends it. `availability` is `None` when the field is
   missing: the detail page treats only an explicit `false` as closed. `rating` (in tenths)
   is `None` when missing, which makes the home page's parse throw.
   */
  datatype RawRestaurant = RawRestaurant(name: string, address: string, availability: Option<bool>, rating: Option<int>)

  /** A food court as the home page lists it: a 1-based position id and the copied open flag. */
  datatype Court = Court(id: nat, name: string, address: string, isOpen: Option<bool>)

  /**
   A cart line as the cart service returns it; `restaurant` is the owning food court's name
   ("" when the service sends none).
   */
  datatype CartLine = CartLine(itemId: string, quantity: int, restaurant: string)

  /** JavaScript truthiness of the copied open flag (a missing flag reads as closed). */
  predicate IsOpen(c: Court) {
    c.isOpen == Some(true)
  }

  /** The pseudo-category that heads the category list and selects no category filter. */
  const AllCategories: string := "All Categories"

  /** Home page `processFoodCourts`: one court per record, in input order. */
  function ProcessFoodCourts(raw: seq<RawRestaurant>): (r: seq<Court>)
    ensures |r| == |raw|
    ensures forall i :: 0 <= i < |r| ==>
      r[i].id == i + 1 && r[i].name == raw[i].name && r[i].isOpen == raw[i].availability
  {
    seq(|raw|, i requires 0 <= i < |raw| => Court(i + 1, raw[i].name, raw[i].address, raw[i].availability))
  }

  /** Position ids are distinct, so they identify a court within one listing. */
  lemma ProcessedIdsDistinct(raw: seq<RawRestaurant>)
    ensures forall i, j :: 0 <= i < j < |raw| ==>
      ProcessFoodCourts(raw)[i].id != ProcessFoodCourts(raw)[j].id
  {
  }

  /** The first court of the home page's list with the given name, if any. */
  function FindCourt(courts: seq<Court>, name: string): (r: Option<Court>)
    ensures r.None? <==> forall i :: 0 <= i < |courts| ==> courts[i].name != name
    ensures r.Some? ==> exists i :: 0 <= i < |courts| && courts[i] == r.value && FirstNamed(courts, name, i)
  {
    if |courts| == 0 then None
    else if courts[0].name == name then
      assert FirstNamed(courts, name, 0);
      Some(courts[0])
    else
      var rest := FindCourt(courts[1..], name);
      assert rest.Some? ==> exists i :: 0 <= i < |courts| && courts[i] == rest.value && FirstNamed(courts, name, i) by {
        if rest.Some? {
          var i :| 0 <= i < |courts[1..]| && courts[1..][i] == rest.value && FirstNamed(courts[1..], name, i);
          assert FirstNamed(courts, name, i + 1);
        }
      }
      rest
  }

  /** `courts[i]` is the first court named `name`. */
  ghost predicate FirstNamed(courts: seq<Court>, name: string, i: int) {
    0 <= i < |courts| && courts[i].name == name && forall j :: 0 <= j < i ==> courts[j].name != name
  }

  /** The position of the first raw restaurant record with the given name, if any. */
  function FindRestaurant(raw: seq<RawRestaurant>, name: string): (r: Option<nat>)
    ensures r.None? <==> forall i :: 0 <= i < |raw| ==> raw[i].name != name
    ensures r.Some? ==> (r.value < |raw| && raw[r.value].name == name
      && forall j :: 0 <= j < r.value ==> raw[j].name != name)
  {
    if |raw| == 0 then None
    else if raw[0].name == name then Some(0)
    else
      var rest := FindRestaurant(raw[1..], name);
      if rest.Some? then Some(rest.value + 1) else None
  }

  /**
   Looking a court up by name in the home listing finds the same record the detail page's
   status check finds among the raw restaurants, with the same open flag.
   */
  lemma LookupsAgree(raw: seq<RawRestaurant>, name: string)
    ensures FindCourt(ProcessFoodCourts(raw), name).Some? <==> FindRestaurant(raw, name).Some?
    ensures FindRestaurant(raw, name).Some? ==>
      var c := FindCourt(ProcessFoodCourts(raw), name).value;
      var k := FindRestaurant(raw, name).value;
      c.id == k + 1 && c.isOpen == raw[k].availability
  {
  }

  /** Categories of the items, in item order, duplicates kept. */
  function CategoriesOf(items: seq<Item>): (r: seq<string>)
    ensures |r| == |items|
    ensures forall i :: 0 <= i < |items| ==> r[i] == items[i].category
  {
    seq(|items|, i requires 0 <= i < |items| => items[i].category)
  }

  /**
   The category selector's entries: "All Categories" followed by the distinct item categories
   in first-seen order, with repeats dropped.
   */
  function CategoryList(items: seq<Item>): (r: seq<string>)
    ensures |r| >= 1 && r[0] == AllCategories
    ensures forall c :: c in r[1..] <==> exists i :: 0 <= i < |items| && items[i].category == c
    ensures NoDuplicates(r[1..])
    ensures forall i :: 1 <= i < |r| ==> r[i] in CategoriesOf(items)
    ensures forall i, j :: 1 <= i < j < |r| ==>
      FirstIndex(CategoriesOf(items), r[i]) < FirstIndex(CategoriesOf(items), r[j])
  {
    var cats := CategoriesOf(items);
    var d := Dedup(cats);
    var r := [AllCategories] + d;
    assert r[1..] == d;
    forall c ensures c in d <==> exists i :: 0 <= i < |items| && items[i].category == c {
      if c in d {
        var i :| 0 <= i < |cats| && cats[i] == c;
      }
    }
    r
  }

  /**
   The category list is free of duplicates exactly when no item is itself filed under
   "All Categories"; otherwise that label appears twice.
   */
  lemma CategoryListDistinctIff(items: seq<Item>)
    ensures NoDuplicates(CategoryList(items)) <==>
      forall i :: 0 <= i < |items| ==> items[i].category != AllCategories
  {
    var r := CategoryList(items);
    if exists i :: 0 <= i < |items| && items[i].category == AllCategories {
      assert AllCategories in r[1..];
      var j :| 1 <= j < |r| && r[j] == AllCategories by {
        var k :| 0 <= k < |r[1..]| && r[1..][k] == AllCategories;
        assert r[k + 1] == AllCategories;
      }
      assert r[0] == r[j];
    } else {
      forall i, j | 0 <= i < j < |r| ensures r[i] != r[j] {
        if i == 0 {
          assert r[j] in r[1..] by { assert r[1..][j - 1] == r[j]; }
        } else {
          assert r[1..][i - 1] == r[i] && r[1..][j - 1] == r[j];
        }
      }
    }
  }
}
