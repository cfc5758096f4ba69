/** The optional value used throughout the model. A parsed form field is an
    `Option<real>`: `None` stands for the NaN that `parseFloat` yields for
    text that is not a number (an empty field included), and a calculator
    that shows nothing returns `None` where the TypeScript returns `null`. */
module Wrappers {

  datatype Option<+T> = None | Some(value: T)
}
