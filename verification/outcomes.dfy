/** What a call of the engine can end in. */
module Outcomes {

  /** `Ok` is the C return code 0 with its result, `Fail` is the return code
      1 with nothing assigned, and `Undefined` marks a path on which the C
      code performs undefined behaviour instead of returning: a write or
      read outside the block, a read of memory of another type, a write
      through a null pointer, a division by zero. */
  datatype Outcome<+T> = Ok(value: T) | Fail | Undefined
  {
    /** The C return code of a call that returns. */
    function Code(): (c: int)
      requires !Undefined?
      ensures c == 0 <==> Ok?
      ensures c == 0 || c == 1
    {
      if Ok? then 0 else 1
    }
  }

  /** The `N_NET *` argument of Create and Load: a null pointer, or a
      pointer to a handle that is empty or already holds a network. */
  datatype Target<+N> = NullTarget | Target(held: Option<N>)

  datatype Option<+T> = None | Some(value: T)
}
