/** The failure-absorbing guard `trySafe` (main.ts:106-113).

    The guarded callback is an awaited platform call, so it is represented by
    its outcome: `Ok(v)` when it resolves with `v`, `Err(e)` when it throws or
    rejects. The guard's TypeScript result type `T | false` becomes `Guarded<T>`,
    which has no error alternative: nothing the callback does can escape it.
 */
module SafeCall {
  import opened Wrappers

  /** `Value(v)` is the callback's own result, `SentinelFalse` the `false`
      returned from the catch block. */
  datatype Guarded<+T> = Value(value: T) | SentinelFalse

  function TrySafe<T, E>(call: Result<T, E>): (g: Guarded<T>)
    ensures g.Value? <==> call.Ok?
    ensures call.Ok? ==> g.value == call.value
  {
    match call
    case Ok(v) => Value(v)
    case Err(_) => SentinelFalse
  }

  /** Two calls that fail for different reasons are indistinguishable after the
      guard: the error itself is only logged, never returned. */
  lemma TrySafeForgetsError<T, E>(e1: E, e2: E)
    ensures TrySafe<T, E>(Err(e1)) == TrySafe<T, E>(Err(e2)) == SentinelFalse
  {
  }
}
