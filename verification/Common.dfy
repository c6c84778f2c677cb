/** Types and predicates shared by the models. */
module Common {

  datatype Option<+T> = None | Some(value: T)

  /** A value, or the message of the exception the modelled code throws. */
  datatype Result<+T> = Ok(value: T) | Err(message: string)

  /** Where a list lies in the vector of all elements. */
  datatype ListEntry = ListEntry(offset: nat, length: nat)

  predicate IsSpace(c: char) {
    c == ' ' || c == '\t' || c == '\n' || c == 11 as char || c == 12 as char || c == '\r'
  }

  predicate IsNewline(c: char) {
    c == '\n' || c == '\r'
  }
}
