/**
 * The `FocusTimer` component as an object: its five state cells are fields
 * that the handlers and effects update in place, in the order the component
 * calls its setters. Each method's new state is the corresponding transition
 * of `FocusTimerSpec`, and each keeps `Valid()`, the spec's invariant.
 * Callbacks (`onStart`, `onTransactionConfirmed`, `onEnd`) are returned as a
 * `Signal` rather than called.
 */
module FocusTimerComponent {
  import S = FocusTimerSpec
  import TimeFormat
  import opened Wrappers

  class FocusTimer {
    /** The `duration` prop, which is also `FOCUS_TIME`. */
    var duration: nat
    var timeLeft: int
    var isActive: bool
    var isWaitingForTx: bool
    var isWaitingForFocus: bool
    var message: string
    /** Whether an `onStart()` promise is outstanding. */
    ghost var txInFlight: bool

    ghost function State(): S.Timer
      reads this
    {
      S.Timer(duration, timeLeft, isActive, isWaitingForTx, isWaitingForFocus, message, txInFlight)
    }

    ghost predicate Valid()
      reads this
    {
      S.Inv(State())
    }

    constructor (duration: nat)
      ensures Valid() && State() == S.Initial(duration)
    {
      this.duration := duration;
      timeLeft := duration;
      isActive := false;
      message := "";
      isWaitingForTx := false;
      isWaitingForFocus := false;
      txInFlight := false;
    }

    /** The synchronous part of `toggleTimer`; `CallOnStart` means `onStart()` was called. */
    method ToggleTimer() returns (signal: S.Signal)
      requires Valid()
      modifies this
      ensures Valid()
      ensures S.Outcome(State(), signal) == S.Toggle(old(State()))
    {
      signal := S.Silent;
      if !isActive && !isWaitingForTx && !isWaitingForFocus {
        message := S.MsgSending;
        isWaitingForTx := true;
        txInFlight := true;
        if timeLeft == 0 {
          timeLeft := duration;
        }
        signal := S.CallOnStart;
      } else if isActive {
        isActive := false;
      }
    }

    /**
     * The continuation of `toggleTimer` once the outstanding `onStart()`
     * settles; `confirmThrows` says whether `onTransactionConfirmed()` throws.
     */
    method TxResolved(ok: bool, hidden: bool, confirmThrows: bool) returns (signal: S.Signal)
      requires Valid() && txInFlight
      modifies this
      ensures Valid()
      ensures S.Outcome(State(), signal) == S.TxResolved(old(State()), ok, hidden, confirmThrows)
    {
      signal := S.Silent;
      txInFlight := false;
      if ok {
        isWaitingForTx := false;
        message := S.MsgConfirmed;
        isWaitingForFocus := true;
        if !hidden {
          isWaitingForFocus := false;
          isActive := true;
          message := S.MsgStarted;
          signal := S.CallOnTransactionConfirmed;
          if confirmThrows {
            // the catch block
            isWaitingForTx := false;
            isWaitingForFocus := false;
            message := S.MsgFailed;
          }
        }
      } else {
        isWaitingForTx := false;
        isWaitingForFocus := false;
        message := S.MsgFailed;
      }
    }

    method HandleVisibilityChange(hidden: bool) returns (signal: S.Signal)
      requires Valid()
      modifies this
      ensures Valid()
      ensures S.Outcome(State(), signal) == S.VisibilityChanged(old(State()), hidden)
    {
      signal := S.Silent;
      if !hidden && isWaitingForFocus {
        isWaitingForFocus := false;
        isActive := true;
        message := S.MsgStarted;
        signal := S.CallOnTransactionConfirmed;
      }
    }

    method ResetTimer()
      requires Valid() && !isWaitingForTx
      modifies this
      ensures Valid()
      ensures State() == S.Reset(old(State()))
    {
      isActive := false;
      timeLeft := duration;
      message := "";
      isWaitingForTx := false;
      isWaitingForFocus := false;
    }

    /** The interval callback, which exists only while active with time left. */
    method Tick()
      requires Valid()
      modifies this
      ensures Valid()
      ensures State() == S.Tick(old(State()))
    {
      if isActive && timeLeft > 0 {
        timeLeft := timeLeft - 1;
      }
    }

    /** The countdown effect; `CallOnEnd` means `onEnd()` was called. */
    method CompletionEffect() returns (signal: S.Signal)
      requires Valid()
      modifies this
      ensures Valid()
      ensures S.Outcome(State(), signal) == S.CompletionEffect(old(State()))
    {
      signal := S.Silent;
      if isActive && timeLeft > 0 {
        // the interval is armed; the effect changes nothing
      } else if timeLeft == 0 {
        isActive := false;
        message := S.MsgComplete;
        signal := S.CallOnEnd;
      }
    }

    method DurationEffect()
      requires Valid()
      modifies this
      ensures Valid()
      ensures State() == S.DurationEffect(old(State()))
    {
      if !isActive {
        timeLeft := duration;
      }
    }

    method SetDuration(d: nat)
      requires Valid()
      modifies this
      ensures Valid()
      ensures State() == S.SetDuration(old(State()), d)
    {
      duration := d;
    }

    /** The `mm:ss` display of the remaining time. */
    function Display(): (r: string)
      reads this
      requires Valid()
      ensures |r| == 5 <==> timeLeft < 6000
      ensures TimeFormat.ParseTime(r) == Some(timeLeft)
    {
      TimeFormat.FormatTimeLength(timeLeft);
      TimeFormat.FormatTimeRoundTrip(timeLeft);
      TimeFormat.FormatTime(timeLeft)
    }
  }
}
