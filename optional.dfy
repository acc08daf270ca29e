/** The `std::optional` results and the error outcomes of the C++ code. */
module Optional {

  datatype Option<T> = None | Some(value: T)
}
