/** The optional-value wrapper used for nullable query results and optional result fields. */
module Options {

  datatype Option<+T> = None | Some(value: T)
}
