/**
 * `StopAction`, the filter-chain action that stops the current phase. It
 * carries an optional remainder (the unprocessed part of the message) and
 * an optional appender that knows how to merge the next chunk into it.
 */
module StopActions {
  import opened Optional

  /** An object reference; `None` stands for `null`. */
  datatype Ref = Ref(id: nat)

  /** The action type every `StopAction` reports. */
  const TYPE: int := 1

  class StopAction {
    /** The type passed to the `AbstractNextAction` constructor. */
    const actionType: int
    var appender: Option<Ref>
    var remainder: Option<Ref>

    /** `StopAction()`: no remainder, no appender. */
    constructor ()
      ensures actionType == TYPE && remainder == None && appender == None
    {
      actionType := TYPE;
      remainder, appender := None, None;
    }

    /** `StopAction(remainder, appender)`. */
    constructor WithAppender(r: Option<Ref>, a: Option<Ref>)
      ensures actionType == TYPE && remainder == r && appender == a
    {
      actionType := TYPE;
      remainder, appender := r, a;
    }

    /** `StopAction(appendable)`: the appendable is the remainder; no appender. */
    constructor FromAppendable(appendable: Option<Ref>)
      ensures actionType == TYPE && remainder == appendable && appender == None
    {
      actionType := TYPE;
      remainder, appender := appendable, None;
    }

    /** `getRemainder()`. */
    method GetRemainder() returns (r: Option<Ref>)
      ensures r == remainder
    {
      r := remainder;
    }

    /** `getAppender()`. */
    method GetAppender() returns (a: Option<Ref>)
      ensures a == appender
    {
      a := appender;
    }

    /** `setRemainder(appendable)`: the appendable becomes the remainder and any appender is dropped. */
    method SetAppendableRemainder(appendable: Option<Ref>)
      modifies this
      ensures remainder == appendable && appender == None
    {
      remainder := appendable;
      appender := None;
    }

    /** `setRemainder(remainder, appender)`. */
    method SetRemainder(r: Option<Ref>, a: Option<Ref>)
      modifies this
      ensures remainder == r && appender == a
    {
      remainder := r;
      appender := a;
    }

    /** `reset()`: no remainder, no appender; doing it again changes nothing. */
    method Reset()
      modifies this
      ensures remainder == None && appender == None
    {
      remainder := None;
      appender := None;
    }
  }
}
