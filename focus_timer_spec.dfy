/**
 * The focus timer of `FocusTimer.tsx` as a state machine over values.
 *
 * The state is the component's five cells (`timeLeft`, `isActive`,
 * `isWaitingForTx`, `isWaitingForFocus`, `message`), the `duration` prop, and
 * `txInFlight`, which records whether an `onStart()` promise is outstanding
 * (the continuation after `await onStart()` is the `TxResolved` event).
 * Each handler and effect is a function from a state to an `Outcome`: the new
 * state and the callback it invokes, if any. Effects are events the
 * environment may fire at any point, which covers every order React could
 * run them in.
 */
module FocusTimerSpec {
  const MsgSending := "Sending transaction..."
  const MsgConfirmed := "Transaction confirmed! Focus on the website to start timer."
  const MsgStarted := "Timer started!"
  const MsgFailed := "Transaction failed!"
  const MsgComplete := "Focus session complete!"

  datatype Timer = Timer(
    duration: nat,
    timeLeft: int,
    isActive: bool,
    isWaitingForTx: bool,
    isWaitingForFocus: bool,
    message: string,
    txInFlight: bool)

  /** The callback a step invokes. */
  datatype Signal = Silent | CallOnStart | CallOnTransactionConfirmed | CallOnEnd

  datatype Outcome = Outcome(next: Timer, signal: Signal)

  /** At most one of the three flags holds. */
  predicate AtMostOneFlag(t: Timer)
  {
    !(t.isActive && t.isWaitingForTx)
    && !(t.isActive && t.isWaitingForFocus)
    && !(t.isWaitingForTx && t.isWaitingForFocus)
  }

  /**
   * The invariant every reachable state keeps: mutual exclusion of the flags,
   * a non-negative countdown, and "waiting for the transaction" exactly while
   * one is outstanding.
   */
  predicate Inv(t: Timer)
  {
    AtMostOneFlag(t) && t.timeLeft >= 0 && (t.txInFlight <==> t.isWaitingForTx)
  }

  predicate Idle(t: Timer)
  {
    !t.isActive && !t.isWaitingForTx && !t.isWaitingForFocus
  }

  /** The state after mounting with the given `duration`. */
  function Initial(duration: nat): (t: Timer)
    ensures Inv(t) && Idle(t) && t.duration == duration && t.timeLeft == duration && t.message == ""
  {
    Timer(duration, duration, false, false, false, "", false)
  }

  /** `toggleTimer` up to its `await`: a start request, a pause, or nothing. */
  function Toggle(t: Timer): (r: Outcome)
    ensures Idle(t) ==>
      r.signal == CallOnStart && r.next.isWaitingForTx && r.next.txInFlight
      && !r.next.isActive && !r.next.isWaitingForFocus
      && r.next.message == MsgSending
      && r.next.timeLeft == (if t.timeLeft == 0 then t.duration else t.timeLeft)
      && r.next.duration == t.duration
    ensures t.isActive && !t.isWaitingForTx && !t.isWaitingForFocus ==>
      r == Outcome(t.(isActive := false), Silent)
    ensures !t.isActive && (t.isWaitingForTx || t.isWaitingForFocus) ==> r == Outcome(t, Silent)
    ensures Inv(t) ==> Inv(r.next)
  {
    if !t.isActive && !t.isWaitingForTx && !t.isWaitingForFocus then
      var t1 := t.(message := MsgSending, isWaitingForTx := true, txInFlight := true);
      Outcome(if t1.timeLeft == 0 then t1.(timeLeft := t1.duration) else t1, CallOnStart)
    else if t.isActive then
      Outcome(t.(isActive := false), Silent)
    else
      Outcome(t, Silent)
  }

  /**
   * The rest of `toggleTimer` once `onStart()` settles: `ok` is whether it
   * resolved, `hidden` is `document.hidden` at that moment, and
   * `confirmThrows` is whether `onTransactionConfirmed()`, called inside the
   * same `try`, throws. A throw there reaches the `catch` after the timer has
   * already been made active.
   */
  function TxResolved(t: Timer, ok: bool, hidden: bool, confirmThrows: bool): (r: Outcome)
    ensures !r.next.isWaitingForTx && !r.next.txInFlight
    ensures ok && !hidden ==>
      r.next.isActive && !r.next.isWaitingForFocus && r.signal == CallOnTransactionConfirmed
      && r.next.message == (if confirmThrows then MsgFailed else MsgStarted)
    ensures ok && hidden ==>
      r.next.isWaitingForFocus && r.next.isActive == t.isActive
      && r.next.message == MsgConfirmed && r.signal == Silent
    ensures !ok ==>
      !r.next.isWaitingForFocus && r.next.isActive == t.isActive
      && r.next.message == MsgFailed && r.signal == Silent
    ensures r.next.timeLeft == t.timeLeft && r.next.duration == t.duration
    ensures Inv(t) && t.txInFlight ==> Inv(r.next)
  {
    if ok then
      var t1 := t.(isWaitingForTx := false, txInFlight := false);
      var t2 := t1.(message := MsgConfirmed);
      var t3 := t2.(isWaitingForFocus := true);
      if !hidden then
        var t4 := t3.(isWaitingForFocus := false, isActive := true, message := MsgStarted);
        if confirmThrows then
          Outcome(Failed(t4), CallOnTransactionConfirmed)
        else
          Outcome(t4, CallOnTransactionConfirmed)
      else
        Outcome(t3, Silent)
    else
      Outcome(Failed(t.(txInFlight := false)), Silent)
  }

  /** The `catch` block of `toggleTimer`. */
  function Failed(t: Timer): (r: Timer)
    ensures !r.isWaitingForTx && !r.isWaitingForFocus && r.message == MsgFailed
    ensures r.isActive == t.isActive && r.timeLeft == t.timeLeft
  {
    t.(isWaitingForTx := false, isWaitingForFocus := false, message := MsgFailed)
  }

  /** `handleVisibilityChange`; `hidden` is `document.hidden`. */
  function VisibilityChanged(t: Timer, hidden: bool): (r: Outcome)
    ensures r == Outcome(t, Silent) <==> hidden || !t.isWaitingForFocus
    ensures !hidden && t.isWaitingForFocus ==>
      r == Outcome(t.(isWaitingForFocus := false, isActive := true, message := MsgStarted), CallOnTransactionConfirmed)
    ensures Inv(t) ==> Inv(r.next)
  {
    if !hidden && t.isWaitingForFocus then
      Outcome(t.(isWaitingForFocus := false, isActive := true, message := MsgStarted), CallOnTransactionConfirmed)
    else
      Outcome(t, Silent)
  }

  /** `resetTimer`. */
  function Reset(t: Timer): (r: Timer)
    ensures Idle(r) && r.timeLeft == t.duration && r.message == ""
    ensures r.duration == t.duration && r.txInFlight == t.txInFlight
    ensures Inv(t) && !t.isWaitingForTx ==> Inv(r)
  {
    t.(isActive := false, timeLeft := t.duration, message := "", isWaitingForTx := false, isWaitingForFocus := false)
  }

  /** The interval callback: armed only while active with time left, it takes one second off. */
  function Tick(t: Timer): (r: Timer)
    ensures t.isActive && t.timeLeft > 0 ==> r == t.(timeLeft := t.timeLeft - 1)
    ensures !(t.isActive && t.timeLeft > 0) ==> r == t
    ensures t.timeLeft >= 0 ==> r.timeLeft >= 0
    ensures Inv(t) ==> Inv(r)
  {
    if t.isActive && t.timeLeft > 0 then t.(timeLeft := t.timeLeft - 1) else t
  }

  /** The countdown effect: at zero the session ends and `onEnd` is called. */
  function CompletionEffect(t: Timer): (r: Outcome)
    ensures t.timeLeft == 0 ==>
      r.signal == CallOnEnd && !r.next.isActive && r.next.message == MsgComplete
      && r.next == t.(isActive := false, message := MsgComplete)
    ensures t.timeLeft != 0 ==> r == Outcome(t, Silent)
    ensures Inv(t) ==> Inv(r.next)
  {
    if t.isActive && t.timeLeft > 0 then Outcome(t, Silent)
    else if t.timeLeft == 0 then Outcome(t.(isActive := false, message := MsgComplete), CallOnEnd)
    else Outcome(t, Silent)
  }

  /** The duration effect: while not active, `timeLeft` follows `duration`. */
  function DurationEffect(t: Timer): (r: Timer)
    ensures !t.isActive ==> r == t.(timeLeft := t.duration)
    ensures t.isActive ==> r == t
    ensures Inv(t) ==> Inv(r)
  {
    if !t.isActive then t.(timeLeft := t.duration) else t
  }

  /** The parent passes a new `duration` prop. */
  function SetDuration(t: Timer, d: nat): (r: Timer)
    ensures r.duration == d && r.(duration := t.duration) == t
  {
    t.(duration := d)
  }

  /** The start/pause button's label. */
  function ButtonLabel(t: Timer): (r: string)
    ensures AtMostOneFlag(t) ==> (r == "Pause" <==> t.isActive)
    ensures r == "Confirming..." <==> t.isWaitingForTx
    ensures r == "Focus to Start" <==> !t.isWaitingForTx && t.isWaitingForFocus
    ensures Idle(t) <==> r == "Start Focus"
  {
    if t.isWaitingForTx then "Confirming..."
    else if t.isWaitingForFocus then "Focus to Start"
    else if t.isActive then "Pause"
    else "Start Focus"
  }

  // ---- runs of events ----

  datatype Event =
    | ToggleClicked
    | Settled(ok: bool, hidden: bool, confirmThrows: bool)
    | Visibility(hidden: bool)
    | ResetClicked
    | IntervalFired
    | CompletionRan
    | DurationRan
    | NewDuration(d: nat)

  /**
   * When an event can happen: a settlement needs an outstanding `onStart()`;
   * the reset button is enabled only while active, and the model admits it
   * whenever no transaction is outstanding, which includes that.
   */
  predicate Enabled(t: Timer, e: Event)
  {
    match e
    case Settled(_, _, _) => t.txInFlight
    case ResetClicked => !t.txInFlight
    case _ => true
  }

  function Apply(t: Timer, e: Event): Outcome
  {
    match e
    case ToggleClicked => Toggle(t)
    case Settled(ok, hidden, confirmThrows) => TxResolved(t, ok, hidden, confirmThrows)
    case Visibility(hidden) => VisibilityChanged(t, hidden)
    case ResetClicked => Outcome(Reset(t), Silent)
    case IntervalFired => Outcome(Tick(t), Silent)
    case CompletionRan => CompletionEffect(t)
    case DurationRan => Outcome(DurationEffect(t), Silent)
    case NewDuration(d) => Outcome(SetDuration(t, d), Silent)
  }

  /** The state after a sequence of events; events that cannot happen are skipped. */
  function Run(t: Timer, events: seq<Event>): Timer
    decreases |events|
  {
    if events == [] then t
    else Run(if Enabled(t, events[0]) then Apply(t, events[0]).next else t, events[1..])
  }

  lemma StepKeepsInv(t: Timer, e: Event)
    requires Inv(t) && Enabled(t, e)
    ensures Inv(Apply(t, e).next)
  {
  }

  /** Every reachable state satisfies the invariant: in particular at most one flag holds and `timeLeft >= 0`. */
  lemma {:induction false} RunKeepsInv(t: Timer, events: seq<Event>)
    requires Inv(t)
    ensures Inv(Run(t, events))
    decreases |events|
  {
    if events != [] {
      var t' := if Enabled(t, events[0]) then Apply(t, events[0]).next else t;
      if Enabled(t, events[0]) {
        StepKeepsInv(t, events[0]);
      }
      RunKeepsInv(t', events[1..]);
    }
  }

  lemma Reachable(duration: nat, events: seq<Event>)
    ensures var t := Run(Initial(duration), events);
      AtMostOneFlag(t) && t.timeLeft >= 0
  {
    RunKeepsInv(Initial(duration), events);
  }

  // ---- counting down ----

  /** One second of an active session: the interval fires, then the countdown effect runs. */
  function Second(t: Timer): Outcome
  {
    CompletionEffect(Tick(t))
  }

  /** `k` seconds from `t`: the final state and how many times `onEnd` was called. */
  function Countdown(t: Timer, k: nat): (Timer, nat)
    decreases k
  {
    if k == 0 then (t, 0)
    else
      var o := Second(t);
      var (t', ends) := Countdown(o.next, k - 1);
      (t', ends + (if o.signal == CallOnEnd then 1 else 0))
  }

  /** Fewer seconds than are left only count down, and `onEnd` is not called. */
  lemma {:induction false} CountdownRunning(t: Timer, k: nat)
    requires t.isActive && k < t.timeLeft
    ensures Countdown(t, k) == (t.(timeLeft := t.timeLeft - k), 0)
    decreases k
  {
    if k > 0 {
      var t1 := t.(timeLeft := t.timeLeft - 1);
      assert Second(t) == Outcome(t1, Silent);
      CountdownRunning(t1, k - 1);
    }
  }

  /**
   * An active session with `n >= 1` seconds left ends after exactly `n`
   * seconds: time is 0, the timer is inactive, the message says the session
   * is complete, and `onEnd` was called once.
   */
  lemma {:induction false} CountdownCompletes(t: Timer)
    requires t.isActive && t.timeLeft >= 1
    ensures Countdown(t, t.timeLeft) == (t.(timeLeft := 0, isActive := false, message := MsgComplete), 1)
    decreases t.timeLeft
  {
    var t1 := t.(timeLeft := t.timeLeft - 1);
    if t.timeLeft == 1 {
      assert Second(t) == Outcome(t1.(isActive := false, message := MsgComplete), CallOnEnd);
    } else {
      assert Second(t) == Outcome(t1, Silent);
      CountdownCompletes(t1);
    }
  }

  /**
   * The completion clears `isActive`, which re-runs the countdown effect; if
   * that run still sees `timeLeft == 0` (the duration effect's reset not yet
   * applied), it calls `onEnd` a second time.
   */
  lemma CompletionRerunCallsOnEndAgain(t: Timer)
    requires t.isActive && t.timeLeft >= 1
    ensures var done := Countdown(t, t.timeLeft).0;
      !done.isActive && CompletionEffect(done) == Outcome(done, CallOnEnd)
  {
    CountdownCompletes(t);
  }

  /** The duration effect that follows a pause puts `timeLeft` back to the full duration. */
  lemma PauseThenEffectResets(t: Timer)
    requires Inv(t) && t.isActive
    ensures Toggle(t).signal == Silent && !Toggle(t).next.isActive
    ensures DurationEffect(Toggle(t).next).timeLeft == t.duration
  {
  }

  /** From idle, a start request followed by a confirmation on a visible page starts the countdown. */
  lemma StartThenConfirm(t: Timer)
    requires Inv(t) && Idle(t)
    ensures var s := TxResolved(Toggle(t).next, true, false, false);
      Inv(s.next) && s.next.isActive && s.next.message == MsgStarted
      && s.next.timeLeft == (if t.timeLeft == 0 then t.duration else t.timeLeft)
  {
  }
}
