/** An optional value, shared by the regex model (no match at a position)
    and the dashboard (no assets to value). */
module Options {
  datatype Option<T> = None | Some(value: T)
}
