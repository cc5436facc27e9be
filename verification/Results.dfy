/** Result types shared by the models of the kernel's operations. */
module Results {

  datatype Option<+T> = None | Some(value: T)

  /** What a kernel operation comes to. An ASSERT or PANIC stops the whole system;
      the scan of a full bitmap is one such stop, kept apart because it says only that
      memory or disk space ran out. */
  datatype Outcome<+T> =
    | Done(value: T)
    | Exhausted
    | AssertFailed
  {
    predicate IsFailure() {
      !Done?
    }

    function PropagateFailure<U>(): Outcome<U>
      requires !Done?
    {
      if Exhausted? then Exhausted else AssertFailed
    }

    function Extract(): T
      requires Done?
    {
      value
    }
  }
}
