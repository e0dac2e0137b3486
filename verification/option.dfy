/** A value that may be missing: JavaScript's `undefined` (or NaN, for numbers)
    on the one side, a present value on the other. */
module Optional {

  datatype Option<+T> = None | Some(value: T)
}
