/** The Option datatype shared by the model: `None` stands for JavaScript's
    `undefined`/`null` results ("not found"). */
module Wrappers {

  datatype Option<+T> = None | Some(value: T)
}
