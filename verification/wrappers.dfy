/** Option and Result, the two shapes the engine uses for "maybe absent" and "may fail". */
module Wrappers {

  datatype Option<+T> = None | Some(value: T) {
    predicate IsSome() {
      Some?
    }

    function UnwrapOr(default: T): T {
      match this
      case Some(v) => v
      case None => default
    }
  }

  datatype Result<+T, +E> = Ok(value: T) | Err(error: E) {
    predicate IsOk() {
      Ok?
    }
  }
}
