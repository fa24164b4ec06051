/** The usual optional-value datatype; `None` stands for the source's `null`. */
module Options {
  datatype Option<+T> = None | Some(value: T)
}
