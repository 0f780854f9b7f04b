/** Where a handler sends the browser, and the one-shot state the home page receives. */
module Navigation {
  import opened Wrappers
  import opened Catalog
  import opened Notify

  /**
   The router state the home page is entered with. `Plain` stands for no state, `{}` and
   `{ showPopup: false }`, which all carry no message.
   */
  datatype HomeNav = Plain | WithPopup(message: string, kind: Kind)

  /** A navigation issued by a handler; `Stay` when it issued none. */
  datatype Route =
    | Stay
    | ToHome(state: HomeNav)
    | ToDetails(court: Court, scrollTo: Option<string>)
}
