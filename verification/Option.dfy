/** An optional value, used where the source uses `Option` or a nullable pointer. */
module OptionValue {
  datatype Option<+T> = None | Some(value: T)
}
