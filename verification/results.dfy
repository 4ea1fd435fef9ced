/** Failure-carrying datatypes shared by every handler of the model. */
module Results {

  /** An optional value, for fields a request or a document may leave out. */
  datatype Option<+T> = None | Some(value: T)

  /** A handler's reply: the value it sends back, or one of its error tags. */
  datatype Result<+T, +E> = Ok(value: T) | Err(error: E)

  /** What a request leaves behind: the store after the request, and the reply.
      A failing request may still have changed the store. */
  datatype Response<S, T, E> = Response(state: S, reply: Result<T, E>)
}
