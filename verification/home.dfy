/**
 The home page: the 5-second fetch of courts and items, the pop-up carried in by navigation,
 and the item and court click handlers.
 */
module Home {
  import opened Wrappers
  import opened Catalog
  import opened Notify
  import opened Navigation
  import opened Remote

  const FetchErrorMessage: string := "Failed to load food courts or items. Please try again later."
  const FetchPopupMessage: string := "Failed to load food courts or items"
  const UnavailableMessage: string := "This item is temporarily not available."
  const CourtClosedMessage: string := "This food court is currently closed."

  /**
   The home page state: the court listing, the items, the inline fetch error, the pop-up, the
   loading flag and the router state it was entered with.
   */
  datatype HomeState = HomeState(
    courts: seq<Court>,
    items: seq<Item>,
    fetchError: string,
    popup: Popup,
    loading: bool,
    location: HomeNav)

  /** A click handler's outcome: the new state and the navigation it issued (`Stay` if none). */
  datatype Clicked = Clicked(state: HomeState, route: Route)

  /** A failed fetch: the inline error and the error pop-up. */
  function FetchFailed(st: HomeState): (r: HomeState)
    ensures r.fetchError == FetchErrorMessage && r.popup == Show(st.popup, FetchPopupMessage, Error)
    ensures r.courts == st.courts && r.items == st.items && r.location == st.location
  {
    st.(fetchError := FetchErrorMessage, popup := Show(st.popup, FetchPopupMessage, Error))
  }

  /** Every restaurant record carries a rating: the home page's parse reads it unguarded. */
  predicate RestaurantsRated(raw: seq<RawRestaurant>) {
    forall i :: 0 <= i < |raw| ==> raw[i].rating.Some?
  }

  /** Every item carries a rating: the home page's item parse reads it unguarded too. */
  predicate ItemsRated(items: seq<Item>) {
    forall i :: 0 <= i < |items| ==> items[i].rating.Some?
  }

  /**
   The home page's `fetchData`. Both requests run together and a rejection of either aborts
   the cycle. The court list is parsed and replaced as soon as its `success` flag is checked,
   before the item list's flag is; a record without a rating makes its parse throw. So a
   failing or unparsable item response leaves new courts beside old items. Loading ends
   either way.
   */
  function FetchCycle(st: HomeState, courts: Fetch<seq<RawRestaurant>>, items: Fetch<seq<Item>>): (r: HomeState)
    ensures !r.loading && r.location == st.location
    // The court half fails: nothing is replaced.
    ensures courts.Threw? || items.Threw? || !courts.success || !RestaurantsRated(courts.data) ==>
      r == FetchFailed(st).(loading := false)
    ensures courts.Responded? && items.Responded? && courts.success && RestaurantsRated(courts.data) ==>
      r.courts == ProcessFoodCourts(courts.data)
    // The court half succeeds, the item half fails: new courts, old items.
    ensures (courts.Responded? && items.Responded? && courts.success && RestaurantsRated(courts.data)
             && !(items.success && ItemsRated(items.data))) ==>
      && r.items == st.items
      && r.fetchError == FetchErrorMessage && r.popup == Show(st.popup, FetchPopupMessage, Error)
    ensures (courts.Responded? && items.Responded? && courts.success && RestaurantsRated(courts.data)
             && items.success && ItemsRated(items.data)) ==>
      r.items == items.data && r.fetchError == "" && r.popup == st.popup
  {
    if courts.Threw? || items.Threw? || !courts.success || !RestaurantsRated(courts.data) then
      FetchFailed(st).(loading := false)
    else
      var withCourts := st.(courts := ProcessFoodCourts(courts.data));
      if !items.success || !ItemsRated(items.data) then FetchFailed(withCourts).(loading := false)
      else withCourts.(items := items.data, fetchError := "", loading := false)
  }

  /**
   The home fetch is not atomic: a cycle can install a new court list while keeping the
   previous items.
   */
  lemma FetchNotAtomic(st: HomeState, raw: seq<RawRestaurant>, stale: seq<Item>)
    requires st.items == stale && RestaurantsRated(raw)
    ensures var r := FetchCycle(st, Responded(true, raw), Responded(false, []));
      r.courts == ProcessFoodCourts(raw) && r.items == stale && r.fetchError != ""
  {
  }

  /**
   After a successful cycle every listed item is rated, so the home page never ranks an
   item whose rating it did not parse; the courts are exactly the parsed records.
   */
  lemma {:induction false} FetchedItemsRated(st: HomeState, courts: Fetch<seq<RawRestaurant>>, items: Fetch<seq<Item>>)
    requires ItemsRated(st.items)
    ensures var r := FetchCycle(st, courts, items);
      ItemsRated(r.items) && (r.courts == st.courts || (courts.Responded? && RestaurantsRated(courts.data)))
  {
  }

  /**
   Consuming the router state: a carried pop-up is shown once and the state is replaced by
   `{}`; without one nothing happens.
   */
  function ConsumeLocation(st: HomeState): (r: HomeState)
    ensures r.location == Plain
    ensures st.location.WithPopup? ==> r.popup == Show(st.popup, st.location.message, st.location.kind)
    ensures st.location.Plain? ==> r == st
    ensures r.courts == st.courts && r.items == st.items && r.fetchError == st.fetchError
  {
    match st.location
    case Plain => st
    case WithPopup(message, kind) => st.(popup := Show(st.popup, message, kind), location := Plain)
  }

  /** The carried pop-up is shown only once: consuming again changes nothing. */
  lemma ConsumeOnce(st: HomeState)
    ensures ConsumeLocation(ConsumeLocation(st)) == ConsumeLocation(st)
  {
  }

  /**
   `handleItemClick`: an unavailable item only warns; otherwise the item's court is looked
   up by name and the page opens it scrolled to the item when open, warns when closed, and
   does nothing when no court has that name.
   */
  function ItemClick(st: HomeState, item: Item): (r: Clicked)
    ensures !item.available ==>
      r == Clicked(st.(popup := Show(st.popup, UnavailableMessage, Error)), Stay)
    ensures item.available && FindCourt(st.courts, item.court).None? ==> r == Clicked(st, Stay)
    ensures item.available && FindCourt(st.courts, item.court).Some? ==>
      var c := FindCourt(st.courts, item.court).value;
      && c.name == item.court
      && (IsOpen(c) ==> r == Clicked(st, ToDetails(c, Some(item.id))))
      && (!IsOpen(c) ==> r == Clicked(st.(popup := Show(st.popup, CourtClosedMessage, Error)), Stay))
  {
    if !item.available then Clicked(st.(popup := Show(st.popup, UnavailableMessage, Error)), Stay)
    else
      match FindCourt(st.courts, item.court)
      case None => Clicked(st, Stay)
      case Some(c) =>
        if IsOpen(c) then Clicked(st, ToDetails(c, Some(item.id)))
        else Clicked(st.(popup := Show(st.popup, CourtClosedMessage, Error)), Stay)
  }

  /** `handleFoodCourtClick`: open courts are entered, closed ones only warn. */
  function CourtClick(st: HomeState, court: Court): (r: Clicked)
    ensures r.route.ToDetails? <==> IsOpen(court)
    ensures IsOpen(court) ==> r == Clicked(st, ToDetails(court, None))
    ensures !IsOpen(court) ==> r == Clicked(st.(popup := Show(st.popup, CourtClosedMessage, Error)), Stay)
  {
    if IsOpen(court) then Clicked(st, ToDetails(court, None))
    else Clicked(st.(popup := Show(st.popup, CourtClosedMessage, Error)), Stay)
  }

  /**
   A click on an item navigates only to an open listed court that sells it, with the scroll
   target set to the item.
   */
  lemma ItemClickNavigatesOnlyToOpenCourt(st: HomeState, item: Item)
    ensures var r := ItemClick(st, item);
      r.route.ToDetails? ==>
        && item.available && IsOpen(r.route.court) && r.route.court.name == item.court
        && r.route.court in st.courts && r.route.scrollTo == Some(item.id)
  {
  }
}
