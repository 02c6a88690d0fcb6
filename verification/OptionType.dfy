/** A value that may be missing. */
module OptionType {
  datatype Option<+T> = None | Some(value: T)
}
