/**
 The failures the plugin can surface, and the result type that carries them.
 */
module Errors {
  import opened Js

  datatype Error =
    /** A property read on `null` or `undefined` (the host passed no service). */
    | TypeError
    /** `SimpleError` (index.js:10-16): an `Error` whose `stack` is set to `null`. */
    | SimpleError(message: string, stack: JsValue)
    /** A value thrown or rejected by an evaluated script, propagated unchanged. */
    | Thrown(value: JsValue)

  /** `new SimpleError(msg)`: the message is kept and the stack trace is
      dropped. */
  function NewSimpleError(msg: string): (e: Error)
    ensures e.SimpleError? && e.message == msg
    ensures e.stack == Null
  {
    SimpleError(msg, Null)
  }

  datatype Result<+T> = Success(value: T) | Failure(error: Error)
}
