/** The optional value used wherever the engine returns `null` or keeps `Infinity` as "nothing yet". */
module Wrappers {

  datatype Option<+T> = None | Some(value: T)
}
