/** The optional-value datatype shared by every module of the model. */
module Options {

  /** `None` stands for JavaScript's `undefined` (an unset variable, a failed lookup). */
  datatype Option<+T> = None | Some(value: T)
}
