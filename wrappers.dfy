/** Small failure-carrying datatypes: a missing reference and a thrown exception. */
module Wrappers {

  /** `None` stands for the C# `null` reference. */
  datatype Option<+T> = None | Some(value: T)

  /** `Fail` stands for an exception thrown before the operation changed anything. */
  datatype Outcome = Pass | Fail(message: string)
}
