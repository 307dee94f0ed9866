/** Optional values and the failures that the modelled code raises as exceptions. */
module Wrappers {

  datatype Option<T> = None | Some(value: T)

  /** The exceptions of the original code that the model keeps as values. */
  datatype Error =
    /** Indexing an empty list: `xs[0]` in Python (IndexError); in TypeScript `rows[rows.length - 1]` of an empty array is `undefined`, and reading a cell of it is a TypeError. */
    | IndexOutOfRange
    /** `int(text)` rejected its argument (Python's ValueError). */
    | InvalidLiteral(text: string)
    /** A dictionary lookup with a missing key (Python's KeyError). */
    | KeyMissing(key: string)
    /** A date outside `datetime`'s range, years 1 to 9999 (ValueError or OverflowError). */
    | DateOutOfRange
    /** Subscripting `None`, as `fetchone()[0]` does when the query found no row (Python's TypeError). */
    | NoneSubscripted
    /** `Temporal.Instant.from(text)` rejected its argument (JavaScript's RangeError). */
    | InvalidInstant(text: string)

  datatype Result<T> = Ok(value: T) | Err(error: Error)

  function Min(a: int, b: int): int { if a <= b then a else b }
}
