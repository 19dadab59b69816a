/** The `never` of a conditional type that matched nothing, written as an absent value. */
module Wrappers {

  datatype Option<+T> = None | Some(value: T)
}
