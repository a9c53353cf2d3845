/** The optional value used where the source may produce "nothing":
    an out-of-range palette lookup, a group without user data, or a
    path that leaves the tree. */
module Options {

  datatype Option<+T> = None | Some(value: T)

}
