/** A value that may be missing: an address left out of a message, an empty answer. */
module Optional {
  datatype Maybe<+T> = Nothing | Just(value: T)
}
