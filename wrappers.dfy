// Option and Result, used wherever the compiler returns null or throws.
module Wrappers {
  datatype Option<T> = None | Some(value: T)

  /** `Err` stands for a thrown LexicalException or SemanticException. */
  datatype Result<T, E> = Ok(value: T) | Err(error: E)
}
