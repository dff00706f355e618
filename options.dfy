/** The optional value the parsing functions return where Python's `re`
    returns `None` or `strptime` raises `ValueError`. */
module Options {
  datatype Option<T> = None | Some(value: T)
}
