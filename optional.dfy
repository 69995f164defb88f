/** Java's nullable references (a missing move, a winner not yet decided,
    the null sentinel of the undo stack) as an explicit optional value. */
module Optional {
  datatype Option<T> = None | Some(value: T)
}
