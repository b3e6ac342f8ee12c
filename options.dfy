/** The optional value used wherever the script tests a result for truthiness
    (a regex match, a date attribute). */
module Options {
  datatype Option<T> = None | Some(value: T)
}
