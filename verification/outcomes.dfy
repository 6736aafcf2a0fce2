/**
 The failure-carrying values shared by the whole model: an optional value
 (TypeScript's `T | null | undefined`), a result that may carry an error
 message (a thrown `Error`), and what a caller awaiting a promise observes.
 */
module Outcomes {

  /** A value that may be absent: `null` or `undefined` in the extension. */
  datatype Option<+T> = None | Some(value: T)

  /** Either a value or the message of the `Error` that was thrown instead. */
  datatype Result<+T> = Success(value: T) | Failure(message: string)

  /**
   What `await`ing an asynchronous call yields: its value, the message of the
   error it threw or rejected with, or nothing ever, when the promise it
   returned never settles.
   */
  datatype Call<+T> = Returned(value: T) | Threw(message: string) | Pending

  /** The message of every operation the extension declares but has not implemented. */
  const NotImplemented: string := "Method not implemented."
}
