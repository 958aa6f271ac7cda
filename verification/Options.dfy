/** A value that may be missing. */
module Options {

  datatype Option<T> = None | Some(value: T)

  function GetOr<T>(o: Option<T>, default: T): T {
    match o case Some(v) => v case None => default
  }
}
