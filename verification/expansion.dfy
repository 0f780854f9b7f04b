/**
 Which category sections of the detail page are expanded. The map is seeded when the page
 first loads a court's items and is otherwise changed only by the user's toggles, so the
 5-second reloads do not undo them.
 */
module Expansion {
  import opened Wrappers
  import opened Catalog

  /**
   The expansion map, whether it has been seeded in this page instance, and the court it was
   seeded for.
   */
  datatype Expansion = Expansion(open: map<string, bool>, initialized: bool, session: Option<string>)

  /** The state of a freshly mounted page. */
  const Fresh: Expansion := Expansion(map[], false, None)

  /** A section renders expanded when its entry is truthy; a missing entry reads as collapsed. */
  predicate IsExpanded(m: map<string, bool>, category: string) {
    category in m && m[category]
  }

  /** The seeded map: one entry per listed category, "All Categories" collapsed, the rest expanded. */
  function Seed(categories: seq<string>): (m: map<string, bool>)
    ensures forall c :: c in m <==> c in categories
    ensures forall c :: c in categories ==> (IsExpanded(m, c) <==> c != AllCategories)
  {
    map c | c in categories :: c != AllCategories
  }

  /**
   The seeding step of `processFoodItems`: re-seed when the map was never seeded or was
   seeded for another court; otherwise keep it untouched.
   */
  function OnItemsLoaded(e: Expansion, categories: seq<string>, court: Option<string>): (r: Expansion)
    ensures (!e.initialized || e.session != court) ==>
      r.open == Seed(categories) && r.initialized && r.session == court
    ensures e.initialized && e.session == court ==> r == e
  {
    if !e.initialized || e.session != court then Expansion(Seed(categories), true, court)
    else e
  }

  /**
   `handleCategoryToggle`: flips one section. A category without an entry becomes expanded,
   since `!undefined` is `true`. Every other entry is untouched.
   */
  function Toggle(e: Expansion, category: string): (r: Expansion)
    ensures IsExpanded(r.open, category) <==> !IsExpanded(e.open, category)
    ensures category in r.open
    ensures forall c :: c != category ==> (c in r.open <==> c in e.open)
    ensures forall c :: c != category && c in e.open ==> r.open[c] == e.open[c]
    ensures r.initialized == e.initialized && r.session == e.session
  {
    e.(open := e.open[category := !IsExpanded(e.open, category)])
  }

  /** Toggling a section twice shows every section as before. */
  lemma ToggleTwice(e: Expansion, category: string)
    ensures forall c :: IsExpanded(Toggle(Toggle(e, category), category).open, c) <==> IsExpanded(e.open, c)
  {
  }

  /**
   Once seeded for a court, reloads for the same court keep the user's toggles, whatever
   categories the new items bring.
   */
  lemma {:induction false} ReloadsKeepToggles(e: Expansion, court: Option<string>, loads: seq<seq<string>>, toggled: string)
    requires e.initialized && e.session == court
    ensures var t := Toggle(e, toggled);
      ReloadAll(t, loads, court) == t
    decreases |loads|
  {
    if |loads| > 0 {
      ReloadsKeepToggles(e, court, loads[1..], toggled);
    }
  }

  /** Applies item loads one after another. */
  function ReloadAll(e: Expansion, loads: seq<seq<string>>, court: Option<string>): Expansion
    decreases |loads|
  {
    if |loads| == 0 then e else ReloadAll(OnItemsLoaded(e, loads[0], court), loads[1..], court)
  }

  /** The first load of a fresh page seeds the map. */
  lemma FirstLoadSeeds(categories: seq<string>, court: Option<string>)
    ensures OnItemsLoaded(Fresh, categories, court).open == Seed(categories)
  {
  }
}
