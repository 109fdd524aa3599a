/** Option and Result datatypes shared by the other modules.

    `Option` stands for the nullable values of the bot (an emoji id that is
    `null` for unicode emoji, a `joinedAt` date that may be missing).
    `Result` stands for the outcome of an awaited platform call: `Ok` when the
    promise resolves, `Err` when it rejects.
 */
module Wrappers {

  datatype Option<+T> = None | Some(value: T)

  datatype Result<+T, +E> = Ok(value: T) | Err(error: E)
}
