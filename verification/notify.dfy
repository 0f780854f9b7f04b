/** The transient pop-up both pages show (`showPopup`): one message at a time, latest wins. */
module Notify {

  datatype Kind = Success | Error

  datatype Popup = Popup(open: bool, message: string, kind: Kind)

  /** `showPopup(message, kind)`: replaces whatever was showing. The 3-second auto-close is a timer. */
  function Show(p: Popup, message: string, kind: Kind): (r: Popup)
    ensures r.open && r.message == message && r.kind == kind
  {
    Popup(true, message, kind)
  }

  /** Closing the pop-up (the close button, or the auto-close timer firing). */
  function Dismiss(p: Popup): (r: Popup)
    ensures !r.open && r.message == p.message && r.kind == p.kind
  {
    p.(open := false)
  }

  /** Showing a message forgets the previous one entirely: the latest message wins. */
  lemma ShowForgetsPrevious(p: Popup, q: Popup, m1: string, k1: Kind, m2: string, k2: Kind)
    ensures Show(Show(p, m1, k1), m2, k2) == Show(q, m2, k2)
  {
  }
}
