/** Values exchanged between a command, its runner and its caller. */
module Results {

  datatype Option<+T> = None | Some(value: T)

  /** A Go `error` as the fallback sees it. Errors made by `errors.New` are told apart only by their message. */
  datatype Error = Error(message: string)

  /** What one unit of work (or one fallback) produces: an optional payload and an optional error. */
  datatype Result<V> = Result(value: Option<V>, error: Option<Error>)
}
