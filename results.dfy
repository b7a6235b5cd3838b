/** Option and Result wrappers, and the fatal errors the generator reports. */
module Results {

  datatype Option<+T> = None | Some(value: T)

  datatype Result<+T, +E> = Success(value: T) | Failure(error: E)

  /** Every fatal condition of the generator that survives once I/O is stripped away. */
  datatype Error =
    | MalformedLine(line: string)               // fewer than two `;`-separated fields
    | BadCodePoint(line: string, field: string) // a hexadecimal code point that does not parse
    | NoEmojiCollation                          // no (or an empty) `emoji` collation
    | UnexpectedRuleLine(line: string)          // a collation rule line of unknown shape
    | NoAnnotation(emoji: string)               // an emoji with no annotation
}
