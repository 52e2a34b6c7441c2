/** Java reference values as the core sees them: nullable strings and dates. */
module Values {

  /** A value that may be absent; `None` stands for Java's `null`. */
  datatype Option<+T> = None | Some(value: T)

  /** A Java `String` field, which may be `null`. Its characters stand for
      Java `char`s, so `|s|` is what `String.length()` returns. */
  type Text = Option<string>

  /** A `java.time.LocalDate`. No date arithmetic happens in the core, so a
      date is an opaque value compared only for equality. */
  datatype Date = Date(year: int, month: int, day: int)
}
