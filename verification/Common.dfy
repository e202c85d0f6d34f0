/** Small definitions shared by the components. */
module Common {
  datatype Option<+T> = None | Some(value: T)

  /** Status codes of the C routines: TCL_OK with a result, TCL_BREAK, TCL_ERROR. */
  datatype Status<+T> = Ok(value: T) | Break | Error

  /** isspace() of the C locale: space, tab, newline, vertical tab, form feed, carriage return. */
  predicate IsSpace(c: char) {
    c == ' ' || '\t' <= c <= '\r'
  }

  /** The same, one character at a time: what statements about white space are written in. */
  predicate White(c: char) {
    c == ' ' || c == '\t' || c == '\n' || c == '\U{000B}' || c == '\U{000C}' || c == '\r'
  }
}
