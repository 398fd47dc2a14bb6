/** The optional value used wherever the JavaScript code returns `null`
    (or reads `undefined`) to signal that something is absent. */
module Wrappers {

  datatype Option<+T> = None | Some(value: T)

}
