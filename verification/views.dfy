/**
 The lists both pages render from the catalog: the detail page's filtered and grouped items,
 and the home page's popular items and restaurant list.
 */
module Views {
  import opened Wrappers
  import opened Seqs
  import opened Text
  import opened Catalog
  import opened Ranking
  import opened Expansion

  /** The detail page's item predicate: the selected court, the search query, the category. */
  predicate ShownInDetail(x: Item, court: string, query: string, category: string) {
    && x.court == court
    && QueryAccepts(x.name, query)
    && (category == AllCategories || x.category == category)
  }

  /**
   The detail page's `filteredPopularItems`: nothing without a selected court, otherwise the
   court's items whose name matches the query and whose category is the selected one. There is
   no availability filter: unavailable items are listed too.
   */
  function DetailFilter(items: seq<Item>, selected: Option<Court>, query: string, category: string): (r: seq<Item>)
    ensures selected.None? ==> r == []
    ensures selected.Some? ==> forall i :: 0 <= i < |r| ==>
      && r[i].court == selected.value.name
      && Matches(r[i].name, query)
      && (category == AllCategories || r[i].category == category)
    ensures selected.Some? ==> forall x: Item ::
      (x.court == selected.value.name && Matches(x.name, query)
       && (category == AllCategories || x.category == category)) ==> multiset(r)[x] == multiset(items)[x]
    ensures IsSubseq(r, items)
  {
    match selected
    case None =>
      assert IsSubseq([], items);
      []
    case Some(court) =>
      Filter(items, (x: Item) => ShownInDetail(x, court.name, query, category))
  }

  /** The items of `shown` in category `c`, in order. */
  function InCategory(shown: seq<Item>, c: string): (r: seq<Item>)
    ensures forall i :: 0 <= i < |r| ==> r[i].category == c
    ensures forall x: Item :: x.category == c ==> multiset(r)[x] == multiset(shown)[x]
    ensures IsSubseq(r, shown)
  {
    Filter(shown, (x: Item) => x.category == c)
  }

  /** A rendered category section. */
  datatype Group = Group(category: string, expanded: bool, items: seq<Item>)

  /** The category of each section, in section order. */
  function GroupNames(groups: seq<Group>): seq<string> {
    seq(|groups|, i requires 0 <= i < |groups| => groups[i].category)
  }

  /** Two section lists name the same categories exactly when they agree position by position. */
  lemma GroupNamesAre(groups: seq<Group>, names: seq<string>)
    requires |groups| == |names| && forall i :: 0 <= i < |groups| ==> groups[i].category == names[i]
    ensures GroupNames(groups) == names
  {
  }

  /** One section per category of `listed`, in order, with its expansion flag and shown items. */
  function SectionsFor(listed: seq<string>, open: map<string, bool>, shown: seq<Item>): (r: seq<Group>)
    ensures |r| == |listed| && GroupNames(r) == listed
    ensures forall i :: 0 <= i < |r| ==>
      r[i] == Group(listed[i], IsExpanded(open, listed[i]), InCategory(shown, listed[i]))
  {
    var r := seq(|listed|, i requires 0 <= i < |listed| =>
      Group(listed[i], IsExpanded(open, listed[i]), InCategory(shown, listed[i])));
    GroupNamesAre(r, listed);
    r
  }

  /**
   The grouped rendering under "All Categories": one section per listed category other than
   "All Categories", in list order, holding that category's shown items; a category with no
   shown items renders nothing.
   */
  function Grouped(categories: seq<string>, open: map<string, bool>, shown: seq<Item>): (r: seq<Group>)
    ensures forall i :: 0 <= i < |r| ==>
      && |r[i].items| > 0
      && r[i].category != AllCategories
      && r[i].category in categories
      && r[i].expanded == IsExpanded(open, r[i].category)
      && r[i].items == InCategory(shown, r[i].category)
    ensures IsSubseq(GroupNames(r), categories)
  {
    var listed := Filter(categories, (c: string) => c != AllCategories && |InCategory(shown, c)| > 0);
    SectionsFor(listed, open, shown)
  }

  /**
   Every shown item whose category is listed (and is not "All Categories") appears in the
   section of its category.
   */
  lemma GroupedCovers(categories: seq<string>, open: map<string, bool>, shown: seq<Item>, x: Item)
    requires x in shown && x.category in categories && x.category != AllCategories
    ensures var r := Grouped(categories, open, shown);
      exists i :: 0 <= i < |r| && r[i].category == x.category && x in r[i].items
  {
    var c := x.category;
    var here := InCategory(shown, c);
    assert multiset(shown)[x] > 0;
    assert x in here;
    var p := (c: string) => c != AllCategories && |InCategory(shown, c)| > 0;
    var listed := Filter(categories, p);
    FilterKeeps(categories, p, c);
    var j :| 0 <= j < |listed| && listed[j] == c;
    var r := Grouped(categories, open, shown);
    assert r[j].category == c && x in r[j].items;
  }

  /** What the detail page shows under its category selector. */
  datatype DetailView = NoItems | Flat(items: seq<Item>) | Sections(groups: seq<Group>)

  /**
   The three render branches: the "no items" message when the filtered list is empty, the
   sections when "All Categories" is selected, otherwise the flat filtered list.
   */
  function RenderDetail(filtered: seq<Item>, category: string, categories: seq<string>, open: map<string, bool>): (v: DetailView)
    ensures v.NoItems? <==> |filtered| == 0
    ensures v.Flat? ==> v.items == filtered && category != AllCategories
    ensures v.Sections? ==> category == AllCategories && v.groups == Grouped(categories, open, filtered)
  {
    if |filtered| == 0 then NoItems
    else if category == AllCategories then Sections(Grouped(categories, open, filtered))
    else Flat(filtered)
  }

  /**
   Every item the detail filter shows under "All Categories" is listed in its category's
   section, which shows it when expanded, provided the category list was built from the same
   catalog and no item is filed under "All Categories".
   */
  lemma GroupedShowsEveryItem(items: seq<Item>, court: Court, query: string, open: map<string, bool>, x: Item)
    requires forall i :: 0 <= i < |items| ==> items[i].category != AllCategories
    requires x in DetailFilter(items, Some(court), query, AllCategories)
    ensures var groups := Grouped(CategoryList(items), open, DetailFilter(items, Some(court), query, AllCategories));
      exists i :: 0 <= i < |groups| && groups[i].category == x.category && x in groups[i].items
        && groups[i].expanded == IsExpanded(open, x.category)
  {
    var cats := CategoryList(items);
    var shown := DetailFilter(items, Some(court), query, AllCategories);
    assert x in items;
    var i :| 0 <= i < |items| && items[i] == x;
    assert x.category in cats[1..];
    assert x.category in cats;
    GroupedCovers(cats, open, shown, x);
  }

  /**
   Without the condition of `GroupedShowsEveryItem` an item can vanish: one filed under "All
   Categories" passes the filter, so the sections branch is taken, yet not one section is
   rendered.
   */
  lemma AllCategoriesItemHidden(court: Court, x: Item, open: map<string, bool>)
    requires x.court == court.name && x.category == AllCategories
    ensures var shown := DetailFilter([x], Some(court), "", AllCategories);
      && x in shown
      && RenderDetail(shown, AllCategories, CategoryList([x]), open).Sections?
      && Grouped(CategoryList([x]), open, shown) == []
  {
    var shown := DetailFilter([x], Some(court), "", AllCategories);
    ContainsEmpty(Lower(x.name));
    assert Lower("") == "";
    assert multiset(shown)[x] == multiset([x])[x];
    var cats := CategoryList([x]);
    assert forall i :: 0 <= i < |cats| ==> cats[i] == AllCategories by {
      forall i | 1 <= i < |cats|
        ensures cats[i] == AllCategories
      {
        assert cats[i] in cats[1..];
      }
    }
  }

  /**
   Clearing the detail page's search puts every item of the court in the selected category
   back on the list, whatever it was called.
   */
  lemma EmptyQueryShowsCourt(items: seq<Item>, court: Court, category: string, x: Item)
    requires x in items && x.court == court.name
    requires category == AllCategories || x.category == category
    ensures x in DetailFilter(items, Some(court), "", category)
  {
    ContainsEmpty(Lower(x.name));
    assert Lower("") == "";
    assert multiset(items)[x] > 0;
  }

  /** The home page's search results: every item whose name matches, available or not. */
  function SearchItems(items: seq<Item>, query: string): (r: seq<Item>)
    ensures forall i :: 0 <= i < |r| ==> Matches(r[i].name, query)
    ensures forall x: Item :: Matches(x.name, query) ==> multiset(r)[x] == multiset(items)[x]
    ensures IsSubseq(r, items)
  {
    Filter(items, (x: Item) => Matches(x.name, query))
  }

  /**
   The home page's `filteredPopularItems`: with an empty query the ten best-rated available
   items (ties in catalog order); with a query, every matching item in catalog order,
   availability ignored.
   */
  function PopularItems(items: seq<Item>, query: string): (r: seq<Item>)
    ensures query == "" ==>
      && (forall i :: 0 <= i < |r| ==> r[i].available)
      && SortedByRating(r)
      && |r| == Min(PopularLimit, |Available(items)|)
      && multiset(r) <= multiset(Available(items))
      && (forall y, i :: multiset(Available(items))[y] > multiset(r)[y] && 0 <= i < |r| ==>
            Score(y) <= Score(r[i]))
      && (forall k :: IsPrefix(RatedAs(r, k), RatedAs(Available(items), k)))
    ensures query != "" ==>
      && (forall i :: 0 <= i < |r| ==> Matches(r[i].name, query))
      && (forall x: Item :: Matches(x.name, query) ==> multiset(r)[x] == multiset(items)[x])
      && IsSubseq(r, items)
  {
    if query == "" then TopRated(items) else SearchItems(items, query)
  }

  /** A court stays listed when its name matches or it sells an item whose name matches. */
  predicate CourtMatches(c: Court, items: seq<Item>, query: string) {
    Matches(c.name, query) || exists i :: 0 <= i < |items| && items[i].court == c.name && Matches(items[i].name, query)
  }

  /**
   The home page's `filteredRestaurants`: every court for an empty query, otherwise the
   matching courts in order.
   */
  function FilterRestaurants(courts: seq<Court>, items: seq<Item>, query: string): (r: seq<Court>)
    ensures query == "" ==> r == courts
    ensures query != "" ==> forall i :: 0 <= i < |r| ==> CourtMatches(r[i], items, query)
    ensures query != "" ==> forall c :: CourtMatches(c, items, query) ==> multiset(r)[c] == multiset(courts)[c]
    ensures IsSubseq(r, courts)
  {
    if query == "" then
      SubseqRefl(courts);
      courts
    else Filter(courts, (c: Court) => CourtMatches(c, items, query))
  }

  lemma {:induction false} SubseqRefl<T>(s: seq<T>)
    ensures IsSubseq(s, s)
    decreases |s|
  {
    if |s| > 0 {
      SubseqRefl(s[1..]);
    }
  }
}
