/** The one optional-value type the project uses for a nil-able pointer, error or lookup. */
module Maybe {
  datatype Option<+T> = None | Some(value: T)
}
