/** The optional value the page oracle returns: `None` stands for a fetch or parse that raised. */
module Wrappers {

  datatype Option<+T> = None | Some(value: T)
}
