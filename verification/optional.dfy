/** The optional value used where the source writes `T | null` or `T | undefined`. */
module Optional {

  /** `None` stands for JavaScript's `null` / `undefined`. */
  datatype Option<+T> = None | Some(value: T)
}
