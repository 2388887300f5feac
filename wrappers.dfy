/** The optional value used where the handler may have nothing to give:
    a command without its arguments, a count that does not parse. */
module Wrappers {

  datatype Option<+T> = None | Some(value: T)
}
