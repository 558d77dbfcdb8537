/** A value that may be absent: stands in for C++ `std::optional` and for an
    empty `std::function`. */
module Optional {

  datatype Option<+T> = None | Some(value: T)

}
