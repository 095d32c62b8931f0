/** An optional value: `None` stands for a Python call that raised instead of returning. */
module Options {
  datatype Option<+T> = None | Some(value: T)
}
