/** The optional value used wherever the scraper's Python code has `None`
    or a failed lookup. */
module Wrappers {

  datatype Option<+T> = None | Some(value: T)
}
