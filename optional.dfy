/** A cell value that may be absent: "no data for this address". */
module Optional {

  datatype Option<+T> = None | Some(value: T)
}
