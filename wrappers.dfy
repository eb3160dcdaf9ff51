/** The nullable values of the source (`number | null`) as an Option datatype. */
module Wrappers {

  datatype Option<+T> = None | Some(value: T)

}
