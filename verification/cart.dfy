/**
 The cart coordinator of the food-court detail page: adding an item, the single-court guard
 against the first cart line, and the replace/cancel dialog driven by a pending item. The
 local cart only ever takes a value the cart service returned.
 */
module Cart {
  import opened Wrappers
  import opened Catalog
  import opened Notify
  import opened Remote

  const UnavailableMessage: string := "This item is temporarily not available."
  const AddedMessage: string := "Item added to cart successfully!"
  const AddFailedMessage: string := "Failed to add item to cart"
  const ReplacedMessage: string := "Cart updated with new food court items"
  const ReplaceFailedMessage: string := "Failed to replace items in cart"

  /**
   The detail page's cart-related state: the shared cart, the item waiting on the replace
   dialog, whether that dialog is open, the pop-up and the inline error message.
   */
  datatype CartState = CartState(
    lines: seq<CartLine>,
    pending: Option<Item>,
    replaceOpen: bool,
    popup: Popup,
    errorMessage: string)

  /** A handler's outcome: the new state and the cart mutations it sent, in order. */
  datatype Step = Step(state: CartState, calls: seq<Call>)

  /**
   Adding `item` would mix courts: the cart is non-empty, its first line names a court, and
   that court is not the item's.
   */
  predicate VendorConflict(lines: seq<CartLine>, item: Item) {
    |lines| > 0 && lines[0].restaurant != "" && item.court != lines[0].restaurant
  }

  /** The text of a failed add: the server's message when it sent a non-empty one, else the generic text. */
  function AddFailureText(message: Option<string>): (r: string)
    ensures r != ""
    ensures message.Some? && message.value != "" ==> r == message.value
    ensures (message.None? || message.value == "") ==> r == AddFailedMessage
  {
    if message.Some? && message.value != "" then message.value else AddFailedMessage
  }

  /** `handleAddItem`, with `reply` the answer the add request would get if it were sent. */
  function AddItem(st: CartState, item: Item, reply: AddReply): (out: Step)
    // An unavailable item is refused locally: only the pop-up changes.
    ensures !item.available ==>
      out.calls == [] && out.state == st.(popup := Show(st.popup, UnavailableMessage, Error))
    // A court conflict parks the item and opens the dialog; nothing is sent.
    ensures item.available && VendorConflict(st.lines, item) ==>
      && out.calls == []
      && out.state == st.(pending := Some(item), replaceOpen := true)
    // Otherwise exactly one add request of quantity 1 is sent.
    ensures item.available && !VendorConflict(st.lines, item) ==>
      && out.calls == [AddCall(item.id, 1)]
      && out.state.pending == st.pending && out.state.replaceOpen == st.replaceOpen
    ensures item.available && !VendorConflict(st.lines, item) && reply.Added? ==>
      && out.state.lines == reply.lines
      && out.state.popup == Show(st.popup, AddedMessage, Success)
      && out.state.errorMessage == st.errorMessage
    ensures item.available && !VendorConflict(st.lines, item) && reply.AddFailed? ==>
      && out.state.lines == st.lines
      && out.state.popup == Show(st.popup, AddFailureText(reply.message), Error)
      && out.state.errorMessage == AddFailureText(reply.message)
  {
    if !item.available then
      Step(st.(popup := Show(st.popup, UnavailableMessage, Error)), [])
    else if VendorConflict(st.lines, item) then
      Step(st.(pending := Some(item), replaceOpen := true), [])
    else
      var calls := [AddCall(item.id, 1)];
      match reply
      case Added(lines) =>
        Step(st.(lines := lines, popup := Show(st.popup, AddedMessage, Success)), calls)
      case AddFailed(message) =>
        var text := AddFailureText(message);
        Step(st.(errorMessage := text, popup := Show(st.popup, text, Error)), calls)
  }

  /**
   `handleReplaceItem`: clear the cart, then add the pending item. A failed clear skips the
   add. Whatever fails, the local cart keeps its old lines, even when the clear went through.
   */
  function Replace(st: CartState, clear: ClearReply, add: AddReply): (out: Step)
    ensures st.pending.None? ==> out == Step(st, [])
    ensures st.pending.Some? ==>
      && out.state.pending.None? && !out.state.replaceOpen
      && out.state.errorMessage == st.errorMessage
      && out.calls == (if clear.Cleared? then [ClearCall, AddCall(st.pending.value.id, 1)] else [ClearCall])
    ensures st.pending.Some? && clear.Cleared? && add.Added? ==>
      out.state.lines == add.lines && out.state.popup == Show(st.popup, ReplacedMessage, Success)
    ensures st.pending.Some? && !(clear.Cleared? && add.Added?) ==>
      out.state.lines == st.lines && out.state.popup == Show(st.popup, ReplaceFailedMessage, Error)
  {
    match st.pending
    case None => Step(st, [])
    case Some(item) =>
      var closed := st.(pending := None, replaceOpen := false);
      match clear
      case ClearFailed =>
        Step(closed.(popup := Show(st.popup, ReplaceFailedMessage, Error)), [ClearCall])
      case Cleared =>
        var calls := [ClearCall, AddCall(item.id, 1)];
        match add
        case Added(lines) =>
          Step(closed.(lines := lines, popup := Show(st.popup, ReplacedMessage, Success)), calls)
        case AddFailed(_) =>
          Step(closed.(popup := Show(st.popup, ReplaceFailedMessage, Error)), calls)
  }

  /** `handleCancelReplace`: drops the pending item and closes the dialog, locally. */
  function Cancel(st: CartState): (out: Step)
    ensures out.calls == []
    ensures out.state.pending.None? && !out.state.replaceOpen
    ensures out.state.lines == st.lines && out.state.popup == st.popup
    ensures out.state.errorMessage == st.errorMessage
  {
    Step(st.(pending := None, replaceOpen := false), [])
  }

  /** `handleFoodItemClick` on the detail page: only an unavailable item reacts (with a pop-up). */
  function ItemClick(st: CartState, item: Item): (r: CartState)
    ensures item.available ==> r == st
    ensures !item.available ==> r == st.(popup := Show(st.popup, UnavailableMessage, Error))
  {
    if item.available then st else st.(popup := Show(st.popup, UnavailableMessage, Error))
  }

  /**
   `clearItemSearch`: empties the search box and clears the inline error message. The query
   is an input of the item filter (`Views.DetailFilter`), not part of this state.
   */
  function ClearItemSearch(st: CartState): (r: CartState)
    ensures r.errorMessage == ""
    ensures r.lines == st.lines && r.pending == st.pending && r.replaceOpen == st.replaceOpen
    ensures r.popup == st.popup
  {
    st.(errorMessage := "")
  }

  /** A user action on the detail page, with the server's answers to whatever it sends. */
  datatype Event =
    | AddEvent(item: Item, reply: AddReply)
    | ReplaceEvent(clear: ClearReply, add: AddReply)
    | CancelEvent
    | ClickEvent(item: Item)
    | ClearSearchEvent

  function Apply(st: CartState, e: Event): Step {
    match e
    case AddEvent(item, reply) => AddItem(st, item, reply)
    case ReplaceEvent(clear, add) => Replace(st, clear, add)
    case CancelEvent => Cancel(st)
    case ClickEvent(item) => Step(ItemClick(st, item), [])
    case ClearSearchEvent => Step(ClearItemSearch(st), [])
  }

  /** Runs a session of events; the result collects every mutation sent, in order. */
  function Run(st: CartState, events: seq<Event>): Step
    decreases |events|
  {
    if |events| == 0 then Step(st, [])
    else
      var first := Apply(st, events[0]);
      var rest := Run(first.state, events[1..]);
      Step(rest.state, first.calls + rest.calls)
  }

  /**
   The cart the event's successful reply carries, when the event actually sent the request
   that reply answers: an add that passed both guards, or a replace with an item pending
   whose clear went through.
   */
  function ReplyOf(st: CartState, e: Event): Option<seq<CartLine>> {
    match e
    case AddEvent(item, Added(lines)) =>
      if item.available && !VendorConflict(st.lines, item) then Some(lines) else None
    case ReplaceEvent(Cleared, Added(lines)) =>
      if st.pending.Some? then Some(lines) else None
    case _ => None
  }

  /** The carts of the successful replies a session received, in the order they arrived. */
  function Received(st: CartState, events: seq<Event>): seq<seq<CartLine>>
    decreases |events|
  {
    if |events| == 0 then []
    else
      var here := ReplyOf(st, events[0]);
      (if here.Some? then [here.value] else []) + Received(Apply(st, events[0]).state, events[1..])
  }

  /**
   The cart is never changed locally: after any session it is the cart of the last
   successful reply received, or the cart it started with when none was.
   */
  lemma {:induction false} CartOnlyFromServer(st: CartState, events: seq<Event>)
    ensures var got := Received(st, events);
      Run(st, events).state.lines == (if |got| == 0 then st.lines else got[|got| - 1])
    decreases |events|
  {
    if |events| > 0 {
      var first := Apply(st, events[0]);
      CartOnlyFromServer(first.state, events[1..]);
      var here := ReplyOf(st, events[0]);
      assert first.state.lines == (if here.Some? then here.value else st.lines);
    }
  }

  /** All lines of the cart belong to the court of its first line. */
  predicate SingleCourt(lines: seq<CartLine>) {
    forall i :: 0 <= i < |lines| ==> lines[i].restaurant == lines[0].restaurant
  }

  /**
   The state the court guard relies on: the cart is single-court and, unless empty, its first
   line names a court.
   */
  predicate Guarded(lines: seq<CartLine>) {
    SingleCourt(lines) && (|lines| > 0 ==> lines[0].restaurant != "")
  }

  /**
   What the cart service is trusted to do with a request the event sent. An add answers with
   the lines the page already shows plus lines of the added item's court; clearing then
   adding answers with lines of the pending item's court only. Nothing is assumed about
   single-court carts.
   */
  predicate HonestReply(st: CartState, e: Event) {
    match e
    case AddEvent(item, Added(lines)) =>
      item.available && !VendorConflict(st.lines, item) ==>
        forall j :: 0 <= j < |lines| ==> lines[j] in st.lines || lines[j].restaurant == item.court
    case ReplaceEvent(Cleared, Added(lines)) =>
      st.pending.Some? ==>
        forall j :: 0 <= j < |lines| ==> lines[j].restaurant == st.pending.value.court
    case _ => true
  }

  /** Every request of the session is answered as `HonestReply` describes. */
  predicate HonestSession(st: CartState, events: seq<Event>)
    decreases |events|
  {
    |events| == 0 || (HonestReply(st, events[0]) && HonestSession(Apply(st, events[0]).state, events[1..]))
  }

  /**
   The guard at work: an add answered honestly keeps a guarded cart guarded, because the
   item passes only when the cart is empty or its court is the cart's.
   */
  lemma AddKeepsSingleCourt(st: CartState, item: Item, reply: AddReply)
    requires Guarded(st.lines) && item.court != ""
    requires HonestReply(st, AddEvent(item, reply))
    ensures Guarded(AddItem(st, item, reply).state.lines)
  {
  }

  /** A replace answered honestly leaves only the pending item's court in the cart. */
  lemma ReplaceKeepsSingleCourt(st: CartState, clear: ClearReply, add: AddReply)
    requires Guarded(st.lines)
    requires st.pending.Some? ==> st.pending.value.court != ""
    requires HonestReply(st, ReplaceEvent(clear, add))
    ensures Guarded(Replace(st, clear, add).state.lines)
  {
  }

  /**
   The guard is skipped when the first line names no court: an honest add then mixes two
   courts in one cart.
   */
  lemma UnnamedFirstLineLetsCourtsMix(st: CartState, item: Item)
    requires |st.lines| > 0 && st.lines[0].restaurant == ""
    requires item.available && item.court != ""
    ensures var reply := Added(st.lines + [CartLine(item.id, 1, item.court)]);
      && HonestReply(st, AddEvent(item, reply))
      && !SingleCourt(AddItem(st, item, reply).state.lines)
  {
    var lines := st.lines + [CartLine(item.id, 1, item.court)];
    assert lines[|lines| - 1].restaurant != lines[0].restaurant;
  }

  /** Every available item a session adds names its court. */
  predicate AddsNamedCourts(events: seq<Event>) {
    forall i :: 0 <= i < |events| && events[i].AddEvent? && events[i].item.available ==>
      events[i].item.court != ""
  }

  /**
   The single-court invariant of the cart holds for a whole session of honestly answered
   requests: the client's guard, not the server, keeps courts apart.
   */
  lemma {:induction false} SingleCourtPreserved(st: CartState, events: seq<Event>)
    requires Guarded(st.lines)
    requires st.pending.Some? ==> st.pending.value.court != ""
    requires AddsNamedCourts(events)
    requires HonestSession(st, events)
    ensures Guarded(Run(st, events).state.lines)
    decreases |events|
  {
    if |events| > 0 {
      var e := events[0];
      match e {
        case AddEvent(item, reply) =>
          if item.available {
            AddKeepsSingleCourt(st, item, reply);
          }
        case ReplaceEvent(clear, add) =>
          ReplaceKeepsSingleCourt(st, clear, add);
        case CancelEvent =>
        case ClickEvent(_) =>
        case ClearSearchEvent =>
      }
      var first := Apply(st, e);
      assert AddsNamedCourts(events[1..]) by {
        forall i | 0 <= i < |events[1..]| && events[1..][i].AddEvent? && events[1..][i].item.available
          ensures events[1..][i].item.court != ""
        {
          assert events[1..][i] == events[i + 1];
        }
      }
      SingleCourtPreserved(first.state, events[1..]);
    }
  }

  /** The ids of the available items the session tried to add. */
  function OfferedIds(events: seq<Event>): set<string> {
    set i | 0 <= i < |events| && events[i].AddEvent? && events[i].item.available :: events[i].item.id
  }

  /** A pending item, if any, is an available one. */
  predicate PendingAvailable(st: CartState) {
    st.pending.Some? ==> st.pending.value.available
  }

  /**
   Only available items reach the server: every add request of a session is for an available
   item the user added, or for the available item already pending at its start.
   */
  lemma {:induction false} OnlyAvailableSent(st: CartState, events: seq<Event>)
    requires PendingAvailable(st)
    ensures forall c :: c in Run(st, events).calls && c.AddCall? ==>
      c.itemId in OfferedIds(events) || (st.pending.Some? && c.itemId == st.pending.value.id)
    decreases |events|
  {
    if |events| > 0 {
      var first := Apply(st, events[0]);
      assert PendingAvailable(first.state);
      OnlyAvailableSent(first.state, events[1..]);
      forall i | 0 <= i < |events[1..]| && events[1..][i].AddEvent? && events[1..][i].item.available
        ensures events[1..][i].item.id in OfferedIds(events)
      {
        assert events[1..][i] == events[i + 1];
      }
      if first.state.pending.Some? && first.state.pending != st.pending {
        assert events[0].AddEvent? && events[0].item.available;
        assert first.state.pending.value.id in OfferedIds(events);
      }
    }
  }

  /**
   The inline error message only ever shows the text of a failed add: after any session it
   is the one the session started with, empty after a cleared search, or the failure text of
   one of the session's add events.
   */
  lemma {:induction false} ErrorOnlyFromFailedAdd(st: CartState, events: seq<Event>)
    ensures var m := Run(st, events).state.errorMessage;
      || m == st.errorMessage
      || m == ""
      || exists i :: 0 <= i < |events| && events[i].AddEvent? && events[i].reply.AddFailed?
           && m == AddFailureText(events[i].reply.message)
    decreases |events|
  {
    if |events| > 0 {
      var first := Apply(st, events[0]);
      ErrorOnlyFromFailedAdd(first.state, events[1..]);
      var m := Run(st, events).state.errorMessage;
      if m != first.state.errorMessage && m != "" {
        var i :| 0 <= i < |events[1..]| && events[1..][i].AddEvent? && events[1..][i].reply.AddFailed?
          && m == AddFailureText(events[1..][i].reply.message);
        assert events[1..][i] == events[i + 1];
      }
    }
  }

  /**
   After the replace dialog is accepted and both requests succeed, the cart is exactly what
   the service returned for the pending item, and nothing is left pending.
   */
  lemma ReplaceRoundTrip(st: CartState, item: Item, lines: seq<CartLine>)
    requires item.available && VendorConflict(st.lines, item)
    ensures var parked := AddItem(st, item, AddFailed(None)).state;
      var done := Replace(parked, Cleared, Added(lines));
      && done.calls == [ClearCall, AddCall(item.id, 1)]
      && done.state.lines == lines
      && done.state.pending.None? && !done.state.replaceOpen
  {
  }

  /**
   The partial failure of a replace: when the clear succeeds and the add fails, the server's
   cart is empty but the local cart still shows the old lines.
   */
  lemma ReplacePartialFailureKeepsStaleCart(st: CartState, message: Option<string>)
    requires st.pending.Some? && |st.lines| > 0
    ensures var out := Replace(st, Cleared, AddFailed(message));
      ClearCall in out.calls && out.state.lines == st.lines && out.state.lines != []
  {
  }

  /** Cancelling after a conflict restores exactly the state before the add. */
  lemma CancelUndoesConflict(st: CartState, item: Item, reply: AddReply)
    requires st.pending.None? && !st.replaceOpen
    requires item.available && VendorConflict(st.lines, item)
    ensures Cancel(AddItem(st, item, reply).state).state == st
  {
  }
}
