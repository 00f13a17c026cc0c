/** Option and Result datatypes, and the Python exceptions the scrapers raise or catch. */
module Wrappers {

  datatype Option<+T> = None | Some(value: T)

  /** The exceptions that matter to the scrapers' control flow. */
  datatype PyError =
    | IOError            // a page or list file cannot be opened
    | IndexError         // list index out of range (a structural miss)
    | KeyError           // dictionary lookup of an absent key
    | ValueError         // float() of a non-number, a bad tuple unpack, an extra DictWriter key
    | AttributeError     // attribute access on None (a structural miss)
    | AssertionError     // a failed `assert`
    | UnicodeEncodeError // str.encode("ascii") of a non-ASCII text
    | StopIteration      // reading the header of an empty CSV file
    | TypeError          // a regular expression applied to a number

  datatype Result<+T> = Ok(value: T) | Err(error: PyError)
}
