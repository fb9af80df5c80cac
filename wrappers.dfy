/** The optional value used wherever the profiler can yield "nothing". */
module Wrappers {

  datatype Option<+T> = None | Some(value: T)
}
