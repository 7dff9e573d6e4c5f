/** Option and Result values: the Python code's `None` and its exceptions. */
module Wrappers {

  datatype Option<+T> = None | Some(value: T)

  /** `Fatal` is an exception that ends the build pass. */
  datatype Result<+T, +E> = Ok(value: T) | Fatal(error: E)
}

/** The exceptions that abort a build pass of the book. */
module Errors {
  datatype BuildError =
    | PageNotFound(title: string)                 // `PAGES.index(title)`
    | MissingKey(key: string)                     // `NUMBERS[key]`
    | NotAnInteger(text: string)                  // `int(text)`
    | PartWithoutChapters(part: string)           // `part['chapters'][0]`
    | UnknownCommand(command: string, arg: string) // `^command` not recognised
    | CodeBeforeTitle                             // `number in None`
    | NoTitle                                     // `len(None)` after the scan
    | HeaderNumberUnbound                         // `number` read before assignment
}

module Seqs {
  /** No element occurs twice. */
  predicate Distinct<T(==)>(s: seq<T>) {
    forall i, j :: 0 <= i < j < |s| ==> s[i] != s[j]
  }
}
