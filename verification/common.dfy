/** Result wrappers shared by the models. */
module Common {

  datatype Option<T> = None | Some(value: T)

  /** The outcome of an operation that can fail with a message, the way the
      source's async functions either resolve or throw `new Error(message)`. */
  datatype Result<T> = Ok(value: T) | Err(message: seq<char>)
}
