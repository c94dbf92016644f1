/** The usual optional value: `None` stands for Python's `None` (or a call
    that produced nothing usable), `Some(v)` for a value. */
module Options {

  datatype Option<+T> = None | Some(value: T)
}
