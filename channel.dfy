/**
 * A Go `chan struct{}` used only as a signal: receiving from it succeeds once
 * it is closed, and closing it a second time panics.
 */
module Channel {
  class Signal {
    var closed: bool
    /** How many times `close` has been called on it; a second call is a panic. */
    var closes: nat

    /** The channel has never been closed twice. */
    predicate Valid()
      reads this
    {
      closes == if closed then 1 else 0
    }

    /** make(chan struct{}) */
    constructor ()
      ensures Valid() && !closed
    {
      closed, closes := false, 0;
    }

    /** close(c) */
    method Close()
      modifies this
      ensures closed && closes == old(closes) + 1
    {
      closed, closes := true, closes + 1;
    }
  }
}
