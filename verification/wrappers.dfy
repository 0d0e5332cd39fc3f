/** A value that may be absent: the result of executing a schedule, absent when
    a step of the schedule is not enabled. */
module Wrappers {

  datatype Option<+T> = None | Some(value: T)
}
