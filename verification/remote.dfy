/**
 What the server answers. Every network call of the pages is replaced by its answer, passed in
 as a parameter, so the model is deterministic.
 */
module Remote {
  import opened Wrappers
  import opened Catalog

  /**
   An awaited `axios.get`: it rejected (`Threw`), or it resolved with the body's `success` flag
   and payload.
   */
  datatype Fetch<T> = Threw | Responded(success: bool, data: T)

  /** `POST /api/cart/add`: the new cart lines, or a rejection with the body's optional `message`. */
  datatype AddReply = Added(lines: seq<CartLine>) | AddFailed(message: Option<string>)

  /** `DELETE /api/cart/clear`. */
  datatype ClearReply = Cleared | ClearFailed

  /** A cart mutation the client sends. */
  datatype Call = AddCall(itemId: string, quantity: int) | ClearCall
}
