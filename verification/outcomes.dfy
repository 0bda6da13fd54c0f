/**
  Outcomes of the calls the app makes into the cloud backend and its
  own nullable values. Every repository call reports either a value or an
  exception; a Kotlin exception's `message` is itself nullable, so a failure
  carries an optional message.
 */
module Outcomes {

  /** Kotlin's nullable `T?`: `None` is `null`. */
  datatype Option<+T> = None | Some(value: T) {

    /** The Elvis operator `x ?: default`. */
    function GetOr(default: T): T {
      match this
      case Some(v) => v
      case None => default
    }
  }

  /** The outcome of one external call: `onSuccess(value)` or `onFailure(exception)`. */
  datatype Result<+T> = Success(value: T) | Failure(message: Option<string>)

  /** Kotlin's `Unit`, the payload of calls that report only success. */
  datatype Unit = Unit

  /** How a string template renders a nullable message: `null` prints as "null". */
  function MessageText(message: Option<string>): (text: string)
    ensures message.Some? ==> text == message.value
    ensures message.None? ==> text == "null"
  {
    message.GetOr("null")
  }
}
