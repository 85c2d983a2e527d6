/** Small definitions shared by the other modules. */
module Basics {

  datatype Option<T> = None | Some(value: T)

  /** For counting: one if the condition holds. */
  function B(c: bool): nat { if c then 1 else 0 }
}
