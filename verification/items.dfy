/** The list's unit of data: an item with an identifier and an optional display name. */
module Items {

  /** A value that may be absent (a TypeScript optional field). */
  datatype Option<T> = None | Some(value: T)

  /** id keys rows and selection; name is shown and searched, and may be absent. */
  datatype Item = Item(id: string, name: Option<string>)
}
