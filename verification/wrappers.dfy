/** Failure-compatible result of a computation of the parser. */
module Wrappers {

  /** `None` stands for a computation that produced no value: the source
      either recursed without bound (modelled by running out of fuel) or
      dereferenced the missing rule of an undefined nonterminal. */
  datatype Option<+T> = None | Some(value: T)
}
