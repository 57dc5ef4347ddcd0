/** Stock result datatypes shared by the modules. */
module Wrappers {

  /** `None` stands for JavaScript's `undefined` result of a lookup or a
      search that found nothing. */
  datatype Option<+T> = None | Some(value: T)

  /** The outcome of a JavaScript call that may throw. */
  datatype Outcome<+T> = Returned(value: T) | Threw(error: string)
}
