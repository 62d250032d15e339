/** The Option type used where the extractor's scans may find nothing. */
module Options {

  datatype Option<+T> = None | Some(value: T)
}
