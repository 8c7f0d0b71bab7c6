/**
 A promise as seen from its executor: pending until the first call of
 `resolve` or `reject`; every later call is ignored.
 */
module Promises {
  import opened JsValues

  datatype Promise<+T> = Pending | Resolved(value: T) | Rejected(error: Error) {
    predicate Settled() {
      !Pending?
    }
  }

  /** The executor's `resolve(v)`: takes effect only on a pending promise. */
  function Resolve<T>(p: Promise<T>, v: T): Promise<T> {
    if p.Pending? then Resolved(v) else p
  }

  /** The executor's `reject(e)`: takes effect only on a pending promise. */
  function Reject<T>(p: Promise<T>, e: Error): Promise<T> {
    if p.Pending? then Rejected(e) else p
  }
}
