/** The usual Some/None wrapper: a nullable column, an optional JSON field, a query that may find nothing. */
module Optional {

  datatype Option<+T> = None | Some(value: T)
}
