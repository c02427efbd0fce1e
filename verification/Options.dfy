// What may be missing: the source's null pointers, end iterators and failed reads.
module Options {

  datatype Option<+T> = None | Some(value: T)
}
