/** The optional value that Swift's `try?` makes of a call that may throw:
    `None` stands for "the call threw", `Some(v)` for "it returned v". */
module Wrappers {

  datatype Option<+T> = None | Some(value: T)

}
