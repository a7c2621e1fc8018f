/** Optional values, the result of a command that may be refused, and what the columns of a table take. */
module Common {
  datatype Option<+T> = None | Some(value: T)

  /** A service method either commits or throws; a thrown error leaves the tables as they were. */
  datatype Outcome<+E> = Done | Refused(error: E)

  /** The largest value of a 32-bit column. */
  const MAX_INT := 0x7FFF_FFFF

  /** What a VARCHAR column takes: texts up to its width, without the character 0. */
  predicate Takes(width: nat, text: string) {
    |text| <= width && '\0' !in text
  }

  predicate TakesOptional(width: nat, text: Option<string>) {
    text.Some? ==> Takes(width, text.value)
  }
}
