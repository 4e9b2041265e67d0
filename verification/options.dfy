/** The optional value used for a lookup that may find nothing. */
module Options {

  /** `None` stands for JavaScript's `undefined` where a lookup can miss. */
  datatype Option<+T> = None | Some(value: T)
}
