# Food-court client: cart coordinator and catalog views

A Dafny model of the logic inside the two React pages of the food-court ordering client:

- `client/src/pages/FoodCourtDetailsPage.jsx`: the page of one food court. It holds the cart
  coordinator (add an item, enforce one court per cart against the first cart line, and the
  replace/cancel dialog). It also re-checks every 5 seconds that the court is still open,
  re-fetching the items only when it is, and builds the filtered and per-category item lists
  with a category expansion map that reloads must not reset.
- `client/src/pages/HomePage.jsx`: the landing page. It fetches courts and items every 5
  seconds, ranks the "popular items", filters courts by search, and routes item and court
  clicks. It also shows the one-shot pop-up handed to it by navigation.

Every network call is replaced by its answer, passed in as a parameter (`Remote.Fetch`,
`Remote.AddReply`, `Remote.ClearReply`). A handler returns its new state together with what it
sends (`Cart.Step.calls`) or where it navigates (`Navigation.Route`). Under those inputs each
handler is a pure function.

Modules, one per concept: `Wrappers` (optional values), `Seqs` (order-preserving filter,
first-seen de-duplication), `Text` (case-insensitive substring search), `Catalog` (items,
courts, raw restaurant records, lookups, category list), `Ranking` (stable rating sort and the
top ten), `Expansion` (category expansion map), `Views` (the rendered lists), `Notify`
(pop-up), `Navigation`, `Remote`, `Cart` (the coordinator), `Details` (status check and poll
cycle) and `Home` (home fetch, clicks, router state).

Ratings are integers in tenths of a star; a missing rating is `None` and sorts as 0, as
`rating || 0` does. Lower-casing covers ASCII letters.

Behaviours of the code worth knowing, each stated by a member:

- A replace whose clear succeeds but whose add fails leaves the server's cart empty, while
  the local cart still shows the old lines (`Cart.ReplacePartialFailureKeepsStaleCart`).
- The home fetch is not atomic: the court list is replaced before the item response's success
  flag is checked, so new courts can sit beside old items (`Home.FetchNotAtomic`).
- The court-conflict guard also lets an item through when the first cart line names no court,
  so two courts can then share a cart (`Cart.UnnamedFirstLineLetsCourtsMix`).
- An item filed under the category "All Categories" is listed by the detail filter but
  rendered in no section (`Views.AllCategoriesItemHidden`).
- The status check treats a restaurant record without an `availability` field as open, while
  the home page lists it as closed (`Details.MissingAvailabilityAsymmetry`).
- An item filed under the category "All Categories" makes that label appear twice in the
  category list (`Catalog.CategoryListDistinctIff`).
- The detail page's item filter has no availability condition, so unavailable items are listed.
  The add handler then refuses them.

## Model

| member | source | states |
|---|---|---|
| `Text.ContainsIffOccurs` | client/src/pages/HomePage.jsx:189 | the scanning `includes` finds the query exactly when it occurs at some offset of the name |
| `Text.QueryAccepts` | client/src/pages/FoodCourtDetailsPage.jsx:257 | the guard "empty query accepts, else match" agrees with plain case-insensitive matching on every input |
| `Text.MatchesIgnoresQueryCase` | client/src/pages/FoodCourtDetailsPage.jsx:257 | matching gives the same answer for a query and its lower-cased form |
| `Seqs.Dedup` | client/src/pages/FoodCourtDetailsPage.jsx:56 | the `Set` spread keeps each category once, nothing else, in order of first occurrence |
| `Catalog.ProcessFoodCourts` | client/src/pages/HomePage.jsx:45-54 | one court per record in input order, with id `i + 1`, the record's name, and the availability flag copied as the open flag |
| `Catalog.ProcessedIdsDistinct` | client/src/pages/HomePage.jsx:46 | the position ids of a listing are pairwise distinct |
| `Catalog.FindCourt` | client/src/pages/HomePage.jsx:130 | the lookup returns the first court with the name, and nothing exactly when no court has it |
| `Catalog.FindRestaurant` | client/src/pages/FoodCourtDetailsPage.jsx:97-99 | the lookup returns the first raw record with the name, and nothing exactly when none has it |
| `Catalog.LookupsAgree` | client/src/pages/FoodCourtDetailsPage.jsx:97-100 | the home listing and the raw records find the same court by name, with the same availability flag |
| `Catalog.CategoryList` | client/src/pages/FoodCourtDetailsPage.jsx:56 | "All Categories" first, then exactly the item categories, each once, in first-seen order |
| `Catalog.CategoryListDistinctIff` | client/src/pages/FoodCourtDetailsPage.jsx:56 | the list is duplicate-free exactly when no item is filed under "All Categories" |
| `Ranking.SortByRating` | client/src/pages/HomePage.jsx:202 | the sort orders by non-increasing rating and is a permutation of its input |
| `Ranking.SortIsStable` | client/src/pages/HomePage.jsx:202 | items with equal ratings keep their catalog order |
| `Ranking.StableSortUnique` | client/src/pages/HomePage.jsx:202 | any two rating-sorted lists with the same tie classes are equal, so the stable sort is determined |
| `Ranking.Available` | client/src/pages/HomePage.jsx:201 | exactly the available items, in catalog order |
| `Ranking.TopRated` | client/src/pages/HomePage.jsx:200-203 | only available items, non-increasing rating, length min(10, available count), nothing better rated left out, ties in catalog order |
| `Ranking.TopRatedIsPrefixOfStableSort` | client/src/pages/HomePage.jsx:200-203 | the popular list equals the first ten of every stable rating sort of the available items |
| `Expansion.Seed` | client/src/pages/FoodCourtDetailsPage.jsx:60-65 | one entry per listed category: "All Categories" collapsed, every other category expanded |
| `Expansion.OnItemsLoaded` | client/src/pages/FoodCourtDetailsPage.jsx:59-68 | re-seeds only when never seeded or seeded for another court; otherwise leaves the map and session alone |
| `Expansion.Toggle` | client/src/pages/FoodCourtDetailsPage.jsx:185-190 | flips the one section (an absent entry becomes expanded) and leaves every other entry unchanged |
| `Expansion.ToggleTwice` | client/src/pages/FoodCourtDetailsPage.jsx:185-190 | toggling a section twice renders every section as before |
| `Expansion.ReloadsKeepToggles` | client/src/pages/FoodCourtDetailsPage.jsx:59-68 | once seeded for a court, any sequence of reloads for that court keeps a user toggle |
| `Views.DetailFilter` | client/src/pages/FoodCourtDetailsPage.jsx:254-260 | empty without a court; otherwise exactly the court's items matching the query and category, with multiplicity, in catalog order, availability ignored |
| `Views.InCategory` | client/src/pages/FoodCourtDetailsPage.jsx:382-384 | exactly the shown items of one category, in order |
| `Views.Grouped` | client/src/pages/FoodCourtDetailsPage.jsx:378-385 | sections follow the category list order, skip "All Categories" and empty categories, and carry the expansion flag |
| `Views.GroupedCovers` | client/src/pages/FoodCourtDetailsPage.jsx:378-385 | every shown item of a listed category appears in that category's section |
| `Views.GroupedShowsEveryItem` | client/src/pages/FoodCourtDetailsPage.jsx:377-385 | with the category list built from the catalog and no item filed under "All Categories", every filtered item is listed in its category's section, which shows it when that section is expanded |
| `Views.AllCategoriesItemHidden` | client/src/pages/FoodCourtDetailsPage.jsx:377-385 | an item filed under "All Categories" passes the filter and selects the sections branch, yet no section is rendered |
| `Views.EmptyQueryShowsCourt` | client/src/pages/FoodCourtDetailsPage.jsx:173-176 | after the search is cleared, every item of the court in the selected category is listed |
| `Views.RenderDetail` | client/src/pages/FoodCourtDetailsPage.jsx:377-378 | the "no items" branch exactly when the filtered list is empty; sections under "All Categories"; else the flat list |
| `Views.SearchItems` | client/src/pages/HomePage.jsx:197-199 | exactly the items whose name matches, available or not, in catalog order |
| `Views.PopularItems` | client/src/pages/HomePage.jsx:197-203 | for an empty query: only available items, non-increasing rating, length min(10, available count), drawn from the available items with nothing better rated left out, ties in catalog order; the full-catalog name search otherwise |
| `Views.FilterRestaurants` | client/src/pages/HomePage.jsx:187-195 | all courts for an empty query; otherwise exactly the courts whose name matches or that sell a matching item, in order |
| `Notify.Show` | client/src/pages/HomePage.jsx:101-106 | the pop-up opens with exactly the given message and kind |
| `Notify.Dismiss` | client/src/pages/HomePage.jsx:367 | closing hides the pop-up and keeps its message and kind |
| `Notify.ShowForgetsPrevious` | client/src/pages/FoodCourtDetailsPage.jsx:120-125 | a new message replaces the previous one whatever it was: latest wins |
| `Cart.AddFailureText` | client/src/pages/FoodCourtDetailsPage.jsx:217-218 | the server message when present and non-empty, else "Failed to add item to cart" |
| `Cart.AddItem` | client/src/pages/FoodCourtDetailsPage.jsx:192-220 | unavailable: only an error pop-up, nothing sent; conflict: item pending, dialog open, nothing sent; else one add of quantity 1, the cart becomes the server's lines on success and stays on failure |
| `Cart.Replace` | client/src/pages/FoodCourtDetailsPage.jsx:222-243 | nothing without a pending item; else clear then add (add skipped if clear fails), cart from the server only on full success, generic error otherwise, pending cleared and dialog closed |
| `Cart.Cancel` | client/src/pages/FoodCourtDetailsPage.jsx:245-248 | clears the pending item and closes the dialog, sends nothing, cart and pop-up unchanged |
| `Cart.ItemClick` | client/src/pages/FoodCourtDetailsPage.jsx:178-183 | only an unavailable item reacts, with the error pop-up |
| `Cart.ClearItemSearch` | client/src/pages/FoodCourtDetailsPage.jsx:173-176 | clearing the search empties the inline error message and touches nothing else of the cart state |
| `Cart.CartOnlyFromServer` | client/src/pages/FoodCourtDetailsPage.jsx:192-243 | after any session the cart is the lines of the last successful reply to a request actually sent, or the initial cart when there was none |
| `Cart.AddKeepsSingleCourt` | client/src/pages/FoodCourtDetailsPage.jsx:198-205 | with the first line naming a court, an honestly answered add keeps the cart single-court: the guard admits only the cart's own court into a non-empty cart |
| `Cart.ReplaceKeepsSingleCourt` | client/src/pages/FoodCourtDetailsPage.jsx:222-243 | an honestly answered clear-then-add leaves only the pending item's court in the cart |
| `Cart.UnnamedFirstLineLetsCourtsMix` | client/src/pages/FoodCourtDetailsPage.jsx:199-201 | when the first line names no court the guard is skipped, and an honest add makes a two-court cart |
| `Cart.SingleCourtPreserved` | client/src/pages/FoodCourtDetailsPage.jsx:192-248 | over any session of honestly answered requests for items naming their court, a cart that starts single-court with a named first line stays so; the server is not assumed to keep carts single-court |
| `Cart.ErrorOnlyFromFailedAdd` | client/src/pages/FoodCourtDetailsPage.jsx:173-220 | the inline error after any session is the initial one, empty after a cleared search, or the failure text of one of the session's adds |
| `Cart.OnlyAvailableSent` | client/src/pages/FoodCourtDetailsPage.jsx:192-196 | every add request of a session is for an available item |
| `Cart.ReplaceRoundTrip` | client/src/pages/FoodCourtDetailsPage.jsx:198-235 | a conflicting add followed by a successful replace sends clear then add and installs the server's cart |
| `Cart.ReplacePartialFailureKeepsStaleCart` | client/src/pages/FoodCourtDetailsPage.jsx:226-237 | clear succeeded, add failed: the local cart keeps its old, non-empty lines |
| `Cart.CancelUndoesConflict` | client/src/pages/FoodCourtDetailsPage.jsx:198-204 | cancelling after a conflict restores the state from before the add |
| `Details.CheckCourtStatus` | client/src/pages/FoodCourtDetailsPage.jsx:88-118 | no court: home without pop-up; exception: false and the status error; non-success: false; else open exactly when the court's first record is not explicitly unavailable, redirecting home with "<name> is currently closed." otherwise |
| `Details.AfterStatus` | client/src/pages/FoodCourtDetailsPage.jsx:100-116 | a status check changes only the navigation and the fetch error |
| `Details.FetchItems` | client/src/pages/FoodCourtDetailsPage.jsx:71-86 | success replaces items and categories, seeds expansion when due and clears the error; failure keeps the catalog and sets the error; loading ends |
| `Details.PollCycle` | client/src/pages/FoodCourtDetailsPage.jsx:133-147 | the items are requested exactly when the status check says open; otherwise the catalog is untouched |
| `Details.Mount` | client/src/pages/FoodCourtDetailsPage.jsx:127-141 | no court: only the redirect home; otherwise the page keeps loading exactly when the court is not open |
| `Details.ClosedAtMountKeepsLoading` | client/src/pages/FoodCourtDetailsPage.jsx:133-139 | a court found closed at mount leaves the page empty and loading, with the closed redirect |
| `Details.MissingAvailabilityAsymmetry` | client/src/pages/FoodCourtDetailsPage.jsx:100 | a record without `availability` passes the status check but is listed closed at home |
| `Details.PollingKeepsExpansion` | client/src/pages/FoodCourtDetailsPage.jsx:142-147 | any number of poll cycles for the same court leave a seeded expansion map unchanged |
| `Home.FetchFailed` | client/src/pages/HomePage.jsx:92-95 | a failure sets the inline error and the error pop-up and changes no list |
| `Home.FetchCycle` | client/src/pages/HomePage.jsx:45-99 | a rejection, a failed court response or a restaurant without a rating changes no list; courts are replaced before the item flag is read, and a failed response or an unrated item then keeps the old items; full success clears the error; loading ends |
| `Home.FetchedItemsRated` | client/src/pages/HomePage.jsx:64-90 | after any cycle the listed items are all rated, and new courts come only from fully rated records |
| `Home.FetchNotAtomic` | client/src/pages/HomePage.jsx:81-90 | a cycle with rated restaurants and a failed item response installs new courts beside stale items |
| `Home.ConsumeLocation` | client/src/pages/HomePage.jsx:114-119 | a carried pop-up is shown with its message and kind and the router state is cleared |
| `Home.ConsumeOnce` | client/src/pages/HomePage.jsx:114-119 | consuming the router state a second time changes nothing |
| `Home.ItemClick` | client/src/pages/HomePage.jsx:125-141 | unavailable: error pop-up; court found and open: navigate with the court and the item id; found but closed: closed pop-up; not found: no effect |
| `Home.CourtClick` | client/src/pages/HomePage.jsx:143-149 | navigates to the court exactly when it is open; otherwise the closed pop-up |
| `Home.ItemClickNavigatesOnlyToOpenCourt` | client/src/pages/HomePage.jsx:125-141 | a navigation from an item click always targets an open, listed court selling the item, scrolled to it |

## Left out

- Network calls, the bearer token and `localStorage`: each call is replaced by its answer, passed in as a parameter.
- Timers: the 5-second `setInterval` polling is modelled as a sequence of cycles (`Details.Poll`). The 3-second pop-up auto-close is modelled only as its effect, `Notify.Dismiss`.
- Interleaving of awaited callbacks and results arriving after unmount: each handler runs as one atomic step.
- Scrolling: the deep-link scroll to `scrollToItemId` (FoodCourtDetailsPage.jsx:160-171), the scroll to the error message (154-158) and the home scroll arrows (HomePage.jsx:151-185). They depend on layout. The model only records the scroll target in `Navigation.Route.ToDetails`.
- Parsing the server's item records (field renaming, `toFixed(1)` rounding): items arrive as `Catalog.Item` with ratings in integer tenths. A missing owner name or rating on the detail page appears as `court == ""` or `rating == None`. The home page's throw on a missing rating is modelled (`Home.FetchCycle`); its throw on an item without an owner record is not, because the model's items carry only the owner's name.
- The home page's second court list `foodCourts` (HomePage.jsx:37-44) holds the same id, name and open flag as `restaurants`. Only one list is modelled. Images, descriptions, prices shown and times are display-only; a restaurant's rating matters only through the throw when it is missing.
- The search query is an input of the view functions rather than page state, so every callback that sets or resets it appears only as the query passed to those functions: the query reset of `clearItemSearch` is the empty query (`Views.EmptyQueryShowsCourt`). This covers the home page's top-bar `setSearchQuery` and `clearSearch` (HomePage.jsx:121-123, 210-212) and its bottom-bar home button, which only clears the query and does not navigate (HomePage.jsx:349). On the detail page, the top bar's `setSearchQuery` does nothing, and its `clearSearch` resets the item query and then navigates home (FoodCourtDetailsPage.jsx:267-269); `handleHomeClick` only navigates home (FoodCourtDetailsPage.jsx:250-252).
- Cart.SingleCourtPreserved: assumes the cart service answers honestly (`Cart.HonestReply`). An add's reply holds only lines the page shows plus lines of the item's court, which also assumes the service's cart holds nothing the page does not show.
- Text.Lower: lower-cases ASCII letters only. JavaScript's `toLowerCase` also folds other Unicode letters.
- Rendering, animation and styling. The top and bottom navigation bars and the shipping policy page hold no logic.
