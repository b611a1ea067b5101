/** Option stands for a JavaScript value that may be `null` or `undefined`,
    and for an observable stage that a `catchError` turned into `of(null)`. */
module Wrappers {

  datatype Option<+T> = None | Some(value: T)

}
