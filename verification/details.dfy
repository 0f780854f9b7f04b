/**
 The detail page's availability poller: every cycle first re-checks that the selected court
 is still listed and open, and fetches the items only when it is.
 */
module Details {
  import opened Wrappers
  import opened Catalog
  import opened Notify
  import opened Navigation
  import opened Remote
  import opened Expansion

  const ClosedSuffix: string := " is currently closed."
  const StatusErrorMessage: string := "Failed to verify food court status. Please try again later."
  const ItemsErrorMessage: string := "Failed to load food items. Please try again later."

  /**
   The catalog side of the detail page: loaded items, the category selector's list, the
   expansion map, the inline fetch error, the loading flag and the last navigation issued.
   */
  datatype DetailState = DetailState(
    items: seq<Item>,
    categories: seq<string>,
    expansion: Expansion,
    fetchError: string,
    loading: bool,
    route: Route)

  /** The state of a freshly mounted page. */
  const Mounted: DetailState := DetailState([], [AllCategories], Fresh, "", true, Stay)

  /** The outcome of `checkCourtStatus`: its boolean, the navigation and the fetch error it set. */
  datatype Status = Status(open: bool, route: Route, fetchError: Option<string>)

  /**
   The court named `name` counts as open: its first record exists and its `availability` is
   not literally `false` (a missing flag counts as open here).
   */
  ghost predicate ListedOpen(raw: seq<RawRestaurant>, name: string) {
    exists i :: 0 <= i < |raw| && raw[i].name == name && raw[i].availability != Some(false)
      && forall j :: 0 <= j < i ==> raw[j].name != name
  }

  /** `checkCourtStatus`, with `reply` the answer of the restaurant-list request. */
  function CheckCourtStatus(selected: Option<Court>, reply: Fetch<seq<RawRestaurant>>): (r: Status)
    ensures selected.None? ==> r == Status(false, ToHome(Plain), None)
    ensures selected.Some? && reply.Threw? ==> r == Status(false, Stay, Some(StatusErrorMessage))
    ensures selected.Some? && reply.Responded? && !reply.success ==> r == Status(false, Stay, None)
    ensures selected.Some? && reply.Responded? && reply.success ==>
      && r.fetchError.None?
      && (r.open <==> ListedOpen(reply.data, selected.value.name))
      && (r.open ==> r.route == Stay)
      && (!r.open ==> r.route == ToHome(WithPopup(selected.value.name + ClosedSuffix, Error)))
  {
    match selected
    case None => Status(false, ToHome(Plain), None)
    case Some(court) =>
      match reply
      case Threw => Status(false, Stay, Some(StatusErrorMessage))
      case Responded(success, raw) =>
        if !success then Status(false, Stay, None)
        else
          var found := FindRestaurant(raw, court.name);
          if found.None? || raw[found.value].availability == Some(false) then
            assert !ListedOpen(raw, court.name) by {
              if found.Some? {
                forall i | 0 <= i < |raw| && raw[i].name == court.name && (forall j :: 0 <= j < i ==> raw[j].name != court.name)
                  ensures i == found.value
                {
                  assert raw[found.value].name == court.name;
                }
              }
            }
            Status(false, ToHome(WithPopup(court.name + ClosedSuffix, Error)), None)
          else
            assert ListedOpen(raw, court.name) by {
              var k := found.value;
              assert raw[k].name == court.name && raw[k].availability != Some(false);
            }
            Status(true, Stay, None)
  }

  /** Applies a status check's navigation and fetch error to the page. */
  function AfterStatus(st: DetailState, s: Status): (r: DetailState)
    ensures r.items == st.items && r.categories == st.categories && r.expansion == st.expansion
    ensures r.loading == st.loading
    ensures s.route.Stay? ==> r.route == st.route
    ensures s.route != Stay ==> r.route == s.route
    ensures s.fetchError.Some? ==> r.fetchError == s.fetchError.value
    ensures s.fetchError.None? ==> r.fetchError == st.fetchError
  {
    var routed := if s.route.Stay? then st else st.(route := s.route);
    if s.fetchError.Some? then routed.(fetchError := s.fetchError.value) else routed
  }

  /**
   The detail page's `fetchData`/`processFoodItems`: a successful response replaces the items,
   rebuilds the category list, seeds the expansion map if needed and clears the error.
   Otherwise the previous catalog stays and the error is set. Loading ends either way.
   */
  function FetchItems(st: DetailState, court: Option<Court>, reply: Fetch<seq<Item>>): (r: DetailState)
    ensures !r.loading && r.route == st.route
    ensures reply.Responded? && reply.success ==>
      && r.items == reply.data
      && r.categories == CategoryList(reply.data)
      && r.expansion == OnItemsLoaded(st.expansion, CategoryList(reply.data), if court.Some? then Some(court.value.name) else None)
      && r.fetchError == ""
    ensures !(reply.Responded? && reply.success) ==>
      && r.items == st.items && r.categories == st.categories && r.expansion == st.expansion
      && r.fetchError == ItemsErrorMessage
  {
    match reply
    case Responded(true, items) =>
      var cats := CategoryList(items);
      var session := if court.Some? then Some(court.value.name) else None;
      st.(items := items, categories := cats, expansion := OnItemsLoaded(st.expansion, cats, session),
          fetchError := "", loading := false)
    case _ =>
      st.(fetchError := ItemsErrorMessage, loading := false)
  }

  /** One poll cycle's outcome: the new state and whether the items request was sent. */
  datatype Cycle = Cycle(state: DetailState, itemsRequested: bool)

  /**
   One poll cycle: the status check, then the items fetch only when the court is open. A
   closed, missing or unverifiable court leaves the catalog as it was.
   */
  function PollCycle(st: DetailState, selected: Option<Court>,
                     status: Fetch<seq<RawRestaurant>>, items: Fetch<seq<Item>>): (r: Cycle)
    ensures r.itemsRequested <==> CheckCourtStatus(selected, status).open
    ensures !r.itemsRequested ==>
      && r.state.items == st.items && r.state.categories == st.categories
      && r.state.expansion == st.expansion && r.state.loading == st.loading
    ensures r.itemsRequested ==> selected.Some? && !r.state.loading
  {
    var s := CheckCourtStatus(selected, status);
    var checked := AfterStatus(st, s);
    if s.open then Cycle(FetchItems(checked, selected, items), true)
    else Cycle(checked, false)
  }

  /**
   Mounting the page: without a selected court it only redirects home; otherwise it runs the
   first cycle with the loading flag raised.
   */
  function Mount(selected: Option<Court>, status: Fetch<seq<RawRestaurant>>, items: Fetch<seq<Item>>): (r: DetailState)
    ensures selected.None? ==> r == Mounted.(route := ToHome(Plain))
    ensures selected.Some? ==> (r.loading <==> !CheckCourtStatus(selected, status).open)
    ensures r.loading ==> r.items == [] && r.categories == [AllCategories] && r.expansion == Fresh
  {
    if selected.None? then Mounted.(route := ToHome(Plain))
    else PollCycle(Mounted, selected, status, items).state
  }

  /** A court found closed at mount leaves the page loading, behind the redirect home. */
  lemma ClosedAtMountKeepsLoading(court: Court, raw: seq<RawRestaurant>, items: Fetch<seq<Item>>)
    requires !ListedOpen(raw, court.name)
    ensures var r := Mount(Some(court), Responded(true, raw), items);
      r.loading && r.items == [] && r.route == ToHome(WithPopup(court.name + ClosedSuffix, Error))
  {
  }

  /**
   A court whose record lacks the `availability` field counts as open here, while the home
   page, which reads the same field by truthiness, lists it as closed.
   */
  lemma MissingAvailabilityAsymmetry(court: Court, address: string, rating: Option<int>)
    ensures var raw := [RawRestaurant(court.name, address, None, rating)];
      && CheckCourtStatus(Some(court), Responded(true, raw)).open
      && !IsOpen(ProcessFoodCourts(raw)[0])
  {
  }

  /** Runs several poll cycles in a row. */
  function Poll(st: DetailState, selected: Option<Court>,
                replies: seq<(Fetch<seq<RawRestaurant>>, Fetch<seq<Item>>)>): DetailState
    decreases |replies|
  {
    if |replies| == 0 then st
    else Poll(PollCycle(st, selected, replies[0].0, replies[0].1).state, selected, replies[1..])
  }

  /**
   While the court stays selected, later cycles never re-seed the expansion map once it is
   seeded for that court: user toggles survive every reload.
   */
  lemma {:induction false} PollingKeepsExpansion(st: DetailState, court: Court,
      replies: seq<(Fetch<seq<RawRestaurant>>, Fetch<seq<Item>>)>)
    requires st.expansion.initialized && st.expansion.session == Some(court.name)
    ensures Poll(st, Some(court), replies).expansion == st.expansion
    decreases |replies|
  {
    if |replies| > 0 {
      var next := PollCycle(st, Some(court), replies[0].0, replies[0].1).state;
      assert next.expansion == st.expansion;
      PollingKeepsExpansion(next, court, replies[1..]);
    }
  }
}
