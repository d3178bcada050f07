/**
 * Crash recovery for the code editors: a classifier that decides whether an
 * uncaught error comes from the editor library, a handler that suppresses
 * such errors and, outside a 2000 ms cooldown and outside a recovery in
 * progress, starts a recovery, and the `resetKey` counter that a recovery
 * increments so that every editor remounts.
 *
 * The module-level variables of the handler and the provider's `resetKey`
 * are the fields of one `RecoveryManager`; the clock, the installed window
 * listeners and the 500 ms timer that ends a recovery are explicit
 * parameters and events.
 */
module MonacoRecovery {
  import opened Wrappers
  import opened Strings

  const RecoveryCooldownMs: int := 2000

  /** An error object as the handler sees it; an absent field is "". */
  datatype ErrorObject = ErrorObject(message: string, stack: string)

  /** A DOM event, reduced to whether it offers `stopImmediatePropagation`. */
  datatype DomEvent = DomEvent(hasStopImmediatePropagation: bool)

  /** The three outcomes of `isMonacoError`: `false`, `'suppress-only'`, `true`. */
  datatype Verdict = NotOurs | SuppressOnly | SuppressAndRecover

  /** The listeners the handler installs on the window. */
  datatype Listener = ErrorCapture | ErrorBubble | UnhandledRejection

  const InstalledListeners: seq<Listener> := [ErrorCapture, ErrorBubble, UnhandledRejection]

  /** `error?.message || message || ''`: an empty string counts as absent. */
  function MessageOf(error: Option<ErrorObject>, message: string): string {
    if error.Some? && error.value.message != "" then error.value.message else message
  }

  /** `error?.stack || ''`. */
  function StackOf(error: Option<ErrorObject>): string {
    if error.Some? then error.value.stack else ""
  }

  /**
   * `isMonacoError`: a "Canceled" message during a recovery is only
   * suppressed; otherwise the error is the editor's when its message or
   * stack carries one of the known signatures or the stack passes through
   * the editor's code. The signatures are checked literally, including the
   * redundant `doHitTest` beside `HitTest`.
   */
  function Classify(msg: string, stack: string, isRecovering: bool): (v: Verdict)
    ensures v == SuppressOnly <==> msg == "Canceled" && isRecovering
    ensures v != NotOurs <==>
              msg == "Canceled"
              || Contains(msg, "offsetNode") || Contains(msg, "can't access property")
              || Contains(msg, "is null")
              || Contains(stack, "HitTest") || Contains(stack, "monaco") || Contains(stack, "editor.api")
  {
    DoHitTestSubsumed(stack);
    var isFromMonaco := Contains(stack, "monaco") || Contains(stack, "editor.api");
    if msg == "Canceled" && isRecovering then SuppressOnly
    else
      var isKnownError :=
        Contains(msg, "offsetNode") || Contains(msg, "can't access property")
        || Contains(msg, "is null") || msg == "Canceled"
        || Contains(stack, "doHitTest") || Contains(stack, "HitTest");
      if isKnownError || isFromMonaco then SuppressAndRecover else NotOurs
  }

  /** A stack that mentions `doHitTest` mentions `HitTest`: the first test adds nothing. */
  lemma DoHitTestSubsumed(stack: string)
    ensures Contains(stack, "doHitTest") ==> Contains(stack, "HitTest")
  {
    if Contains(stack, "doHitTest") {
      assert "doHitTest" == "do" + "HitTest" + "";
      ContainsWithin(stack, "do", "HitTest", "");
    }
  }

  /**
   * The state the handler and the provider share: the time of the last
   * recovery, whether one is in progress, whether a provider has
   * registered its trigger, and the provider's `resetKey`.
   */
  datatype RecoveryState = RecoveryState(
    lastRecoveryTime: int,
    isRecovering: bool,
    triggerRegistered: bool,
    resetKey: nat)

  /** Outside the cooldown (strictly) and not already recovering. */
  predicate MayRecover(s: RecoveryState, now: int) {
    now - s.lastRecoveryTime > RecoveryCooldownMs && !s.isRecovering
  }

  /**
   * `handleError` as a function of the state: the new state and whether
   * the error was handled (suppressed).
   */
  function Respond(s: RecoveryState, error: Option<ErrorObject>, message: string, now: int)
    : (r: (RecoveryState, bool))
    ensures var msg := MessageOf(error, message);
            var stack := StackOf(error);
            r.1 <==> msg == "Canceled"
                     || Contains(msg, "offsetNode") || Contains(msg, "can't access property")
                     || Contains(msg, "is null")
                     || Contains(stack, "HitTest") || Contains(stack, "monaco") || Contains(stack, "editor.api")
    ensures r.0 != s <==> r.1 && MayRecover(s, now)
    ensures r.0 != s ==>
              r.0.lastRecoveryTime == now && r.0.isRecovering
              && r.0.triggerRegistered == s.triggerRegistered
              && r.0.resetKey == (if s.triggerRegistered then s.resetKey + 1 else s.resetKey)
  {
    var v := Classify(MessageOf(error, message), StackOf(error), s.isRecovering);
    if v == NotOurs then (s, false)
    else if v == SuppressAndRecover && MayRecover(s, now) then
      var fired := s.(lastRecoveryTime := now, isRecovering := true);
      (if s.triggerRegistered then fired.(resetKey := s.resetKey + 1) else fired, true)
    else (s, true)
  }

  /** The events that change the shared state. */
  datatype Event =
    | ErrorRaised(error: Option<ErrorObject>, message: string, now: int)
    | RecoveringTimerElapsed
    | ProviderMounted
    | ProviderUnmounted

  function Step(s: RecoveryState, e: Event): RecoveryState {
    match e
    case ErrorRaised(error, message, now) => Respond(s, error, message, now).0
    case RecoveringTimerElapsed => s.(isRecovering := false)
    case ProviderMounted => s.(triggerRegistered := true)
    case ProviderUnmounted => s.(triggerRegistered := false)
  }

  /** Whether event `e` starts a recovery. */
  predicate Recovers(s: RecoveryState, e: Event) {
    e.ErrorRaised? && Step(s, e) != s
  }

  function Run(s: RecoveryState, events: seq<Event>): RecoveryState
    decreases |events|
  {
    if |events| == 0 then s else Run(Step(s, events[0]), events[1..])
  }

  /** The number of recoveries a sequence of events starts. */
  function Recoveries(s: RecoveryState, events: seq<Event>): nat
    decreases |events|
  {
    if |events| == 0 then 0
    else (if Recovers(s, events[0]) then 1 else 0) + Recoveries(Step(s, events[0]), events[1..])
  }

  /** Every error in `events` happens no later than `hi`. */
  predicate ErrorsNoLaterThan(events: seq<Event>, hi: int) {
    forall k :: 0 <= k < |events| && events[k].ErrorRaised? ==> events[k].now <= hi
  }

  /** Every error in `events` happens between `lo` and `hi`. */
  predicate ErrorsWithin(events: seq<Event>, lo: int, hi: int) {
    forall k :: 0 <= k < |events| && events[k].ErrorRaised? ==> lo <= events[k].now <= hi
  }

  /**
   * After a recovery at time `t`, no error up to `t` + 2000 ms starts
   * another, whatever else happens in between (the recovering flag
   * clearing, the provider coming and going).
   */
  lemma {:induction false} QuietDuringCooldown(s: RecoveryState, events: seq<Event>, t: int)
    requires s.lastRecoveryTime == t
    requires ErrorsNoLaterThan(events, t + RecoveryCooldownMs)
    ensures Recoveries(s, events) == 0
    ensures Run(s, events).lastRecoveryTime == t && Run(s, events).resetKey == s.resetKey
    decreases |events|
  {
    if |events| > 0 {
      var e := events[0];
      assert e.ErrorRaised? ==> e.now <= t + RecoveryCooldownMs;
      var next := Step(s, e);
      assert !Recovers(s, e);
      assert next.lastRecoveryTime == t && next.resetKey == s.resetKey;
      assert ErrorsNoLaterThan(events[1..], t + RecoveryCooldownMs) by {
        forall k | 0 <= k < |events[1..]| && events[1..][k].ErrorRaised?
          ensures events[1..][k].now <= t + RecoveryCooldownMs
        {
          assert events[1..][k] == events[k + 1];
        }
      }
      QuietDuringCooldown(next, events[1..], t);
    }
  }

  /**
   * Errors that all fall in one window of 2000 ms start at most one
   * recovery between them.
   */
  lemma {:induction false} AtMostOneRecoveryPerWindow(s: RecoveryState, events: seq<Event>, lo: int)
    requires ErrorsWithin(events, lo, lo + RecoveryCooldownMs)
    ensures Recoveries(s, events) <= 1
    decreases |events|
  {
    if |events| > 0 {
      var e := events[0];
      var next := Step(s, e);
      assert ErrorsWithin(events[1..], lo, lo + RecoveryCooldownMs) by {
        forall k | 0 <= k < |events[1..]| && events[1..][k].ErrorRaised?
          ensures lo <= events[1..][k].now <= lo + RecoveryCooldownMs
        {
          assert events[1..][k] == events[k + 1];
        }
      }
      if Recovers(s, e) {
        assert next.lastRecoveryTime == e.now && lo <= e.now;
        QuietDuringCooldown(next, events[1..], e.now);
      } else {
        AtMostOneRecoveryPerWindow(next, events[1..], lo);
      }
    }
  }

  /** `resetKey` never decreases and grows by at most one per recovery. */
  lemma {:induction false} ResetKeyMonotone(s: RecoveryState, events: seq<Event>)
    ensures s.resetKey <= Run(s, events).resetKey <= s.resetKey + Recoveries(s, events)
    decreases |events|
  {
    if |events| > 0 {
      ResetKeyMonotone(Step(s, events[0]), events[1..]);
    }
  }

  /** The module-level variables of the handler together with the provider's counter. */
  class RecoveryManager {
    var lastRecoveryTime: int
    var isRecovering: bool
    var errorHandlerInstalled: bool
    var listeners: seq<Listener>
    var triggerRegistered: bool
    var resetKey: nat

    /** The listeners are on the window exactly when the handler is installed. */
    ghost predicate Valid()
      reads this
    {
      listeners == if errorHandlerInstalled then InstalledListeners else []
    }

    ghost function State(): RecoveryState
      reads this
    {
      RecoveryState(lastRecoveryTime, isRecovering, triggerRegistered, resetKey)
    }

    constructor ()
      ensures Valid()
      ensures State() == RecoveryState(0, false, false, 0) && !errorHandlerInstalled
    {
      lastRecoveryTime := 0;
      isRecovering := false;
      errorHandlerInstalled := false;
      listeners := [];
      triggerRegistered := false;
      resetKey := 0;
    }

    /**
     * `installMonacoErrorHandler`: does nothing when already installed or
     * outside a browser; otherwise adds the capture and bubble `error`
     * listeners and the `unhandledrejection` listener, once.
     */
    method Install(hasWindow: bool)
      requires Valid()
      modifies this`errorHandlerInstalled, this`listeners
      ensures Valid()
      ensures errorHandlerInstalled == (old(errorHandlerInstalled) || hasWindow)
      ensures old(errorHandlerInstalled) ==> listeners == old(listeners)
    {
      if errorHandlerInstalled || !hasWindow {
        return;
      }
      errorHandlerInstalled := true;
      listeners := listeners + [ErrorCapture];
      listeners := listeners + [ErrorBubble];
      listeners := listeners + [UnhandledRejection];
    }

    /** `triggerRecovery`: `setResetKey(k => k + 1)`. */
    method TriggerRecovery()
      modifies this`resetKey
      ensures resetKey == old(resetKey) + 1
    {
      resetKey := resetKey + 1;
    }

    /** The provider's effect: register its trigger, then make sure the handler is installed. */
    method ProviderMounted(hasWindow: bool)
      requires Valid()
      modifies this`triggerRegistered, this`errorHandlerInstalled, this`listeners
      ensures Valid()
      ensures State() == Step(old(State()), Event.ProviderMounted)
      ensures errorHandlerInstalled == (old(errorHandlerInstalled) || hasWindow)
    {
      triggerRegistered := true;
      Install(hasWindow);
    }

    /** The provider's effect cleanup: the trigger reference becomes `null`. */
    method ProviderUnmounted()
      modifies this`triggerRegistered
      ensures State() == Step(old(State()), Event.ProviderUnmounted)
    {
      triggerRegistered := false;
    }

    /** The 500 ms timer set by a recovery clears the flag. */
    method RecoveringTimerElapsed()
      modifies this`isRecovering
      ensures State() == Step(old(State()), Event.RecoveringTimerElapsed)
    {
      isRecovering := false;
    }

    /**
     * `handleError`: a foreign error is left alone; an editor error is
     * default-prevented, its immediate propagation stopped when the event
     * allows it, and a recovery is started when the verdict allows it and
     * the cooldown and recovering gates are open.
     */
    method HandleError(error: Option<ErrorObject>, message: string, event: Option<DomEvent>, now: int)
      returns (handled: bool, prevented: bool, stopped: bool)
      modifies this`lastRecoveryTime, this`isRecovering, this`resetKey
      ensures (State(), handled) == Respond(old(State()), error, message, now)
      ensures prevented == (handled && event.Some?)
      ensures stopped == (handled && event.Some? && event.value.hasStopImmediatePropagation)
    {
      var result := Classify(MessageOf(error, message), StackOf(error), isRecovering);
      if result == NotOurs {
        return false, false, false;
      }
      prevented := event.Some?;
      stopped := event.Some? && event.value.hasStopImmediatePropagation;
      if result != SuppressOnly {
        if now - lastRecoveryTime > RecoveryCooldownMs && !isRecovering {
          lastRecoveryTime := now;
          isRecovering := true;
          if triggerRegistered {
            TriggerRecovery();
          }
        }
      }
      handled := true;
    }
  }
}
