/** A value that may be missing: what a JavaScript `Map.get` returns
    (`undefined` for a key it does not hold). */
module Optional {

  datatype Option<+T> = None | Some(value: T)
}
