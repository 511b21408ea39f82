/** A Twisted `Deferred` as `APNSService.write` and `APNSService.read`
    use it: a single-result future guarded by a timeout call
    (`reactor.callLater(timeout, lambda: d.called or d.errback(...))`)
    that the `cancel_timeout` callback both of them attach with `addBoth`
    cancels once the deferred has a result. */
module Deferreds {

  /** What the deferred has been given: nothing yet, `callback(v)`, or the
      timeout's `errback`. */
  datatype Outcome<T> = Waiting | Succeeded(value: T) | TimedOut

  /** The timeout call: still scheduled, already run, or cancelled. */
  datatype Timer = Armed | Fired | Cancelled

  datatype DeferredState<T> = DeferredState(outcome: Outcome<T>, timer: Timer)

  /** The only two things that happen to such a deferred. */
  datatype Event<T> = Fire(value: T) | Expire

  /** A fresh deferred with its timeout scheduled. */
  function Initial<T>(): DeferredState<T>
  {
    DeferredState(Waiting, Armed)
  }

  /** `try: timeout.cancel() except: pass`: a scheduled call is cancelled;
      cancelling one that already ran or was cancelled raises inside the
      `try`, which swallows it, so nothing changes. */
  function Cancel(t: Timer): (r: Timer)
    ensures r != Armed
    ensures t != Armed ==> r == t
  {
    if t == Armed then Cancelled else t
  }

  /** `d.callback(v)` on a deferred that already has a result raises
      `AlreadyCalledError` and changes nothing. */
  predicate Raises<T>(s: DeferredState<T>, e: Event<T>)
  {
    e.Fire? && !s.outcome.Waiting?
  }

  /** The effect of one event. `Fire(v)` is `d.callback(v)`, after which
      `cancel_timeout` cancels the timer. `Expire` is the reactor running
      the timeout call, which it does only while the call is scheduled;
      the call errbacks only a deferred that is not yet called, and the
      `cancel_timeout` that errback triggers finds the timer already run. */
  function Step<T>(s: DeferredState<T>, e: Event<T>): (r: DeferredState<T>)
    ensures Raises(s, e) ==> r == s
    ensures !s.outcome.Waiting? ==> r.outcome == s.outcome
    ensures Reachable(s) ==> Reachable(r)
  {
    match e
    case Fire(v) =>
      if s.outcome.Waiting? then DeferredState(Succeeded(v), Cancel(s.timer)) else s
    case Expire =>
      if s.timer == Armed then
        DeferredState(if s.outcome.Waiting? then TimedOut else s.outcome, Fired)
      else s
  }

  /** The states reachable from `Initial()`: the timer is scheduled exactly
      while no result is set, a callback cancelled it, a timeout ran it. */
  predicate Reachable<T>(s: DeferredState<T>)
  {
    && (s.outcome.Waiting? <==> s.timer == Armed)
    && (s.outcome.Succeeded? ==> s.timer == Cancelled)
    && (s.outcome.TimedOut? ==> s.timer == Fired)
  }

  function Run<T>(s: DeferredState<T>, events: seq<Event<T>>): DeferredState<T>
    decreases |events|
  {
    if events == [] then s else Run(Step(s, events[0]), events[1..])
  }

  /** A reference for the result a deferred ends with after `events`:
      whichever of the callback and the timeout came first, if any. */
  function FirstResolution<T>(events: seq<Event<T>>): Outcome<T>
    decreases |events|
  {
    if events == [] then Waiting
    else match events[0]
      case Fire(v) => Succeeded(v)
      case Expire => TimedOut
  }

  /** Once a deferred has a result, no later callback or timeout changes it:
      every request is resolved at most once. */
  lemma {:induction false} ResolvedOnce<T>(s: DeferredState<T>, events: seq<Event<T>>)
    requires !s.outcome.Waiting?
    ensures Run(s, events).outcome == s.outcome
    decreases |events|
  {
    if events != [] {
      ResolvedOnce(Step(s, events[0]), events[1..]);
    }
  }

  /** From a fresh deferred, every sequence of events leaves a reachable
      state whose result is the first event's: a request that timed out is
      never also sent, and one that was sent never also times out. */
  lemma {:induction false} RunFromInitial<T>(events: seq<Event<T>>)
    ensures Reachable(Run(Initial<T>(), events))
    ensures Run(Initial<T>(), events).outcome == FirstResolution(events)
  {
    if events != [] {
      var s := Step(Initial<T>(), events[0]);
      ResolvedOnce(s, events[1..]);
      ReachableRun(s, events[1..]);
    }
  }

  lemma {:induction false} ReachableRun<T>(s: DeferredState<T>, events: seq<Event<T>>)
    requires Reachable(s)
    ensures Reachable(Run(s, events))
    decreases |events|
  {
    if events != [] {
      ReachableRun(Step(s, events[0]), events[1..]);
    }
  }

  /** A timeout firing twice, or running after the callback cancelled it,
      is harmless: only the first effective event counts. */
  lemma ExpireIsIdempotent<T>(s: DeferredState<T>, v: T)
    requires Reachable(s)
    ensures Step(Step(s, Expire), Expire) == Step(s, Expire)
    ensures Step(Step(s, Fire(v)), Expire) == Step(s, Fire(v))
  {
  }

  class Deferred<T> {
    /** What the deferred has been given and where its timeout call is. */
    var state: DeferredState<T>

    /** `defer.Deferred()` together with the timeout call scheduled for it
        in the same reactor turn. */
    constructor ()
      ensures state == Initial()
    {
      state := DeferredState(Waiting, Armed);
    }

    /** `d.callback(v)`. */
    method Callback(v: T) returns (raised: bool)
      modifies this
      ensures raised == Raises(old(state), Fire(v))
      ensures state == Step(old(state), Fire(v))
    {
      raised := !state.outcome.Waiting?;
      if !raised {
        state := DeferredState(Succeeded(v), Cancel(state.timer));
      }
    }

    /** The timeout call `lambda: d.called or d.errback(...)`, run by the
        reactor when its delay elapses (never once cancelled). */
    method Expire()
      modifies this
      ensures state == Step(old(state), Event.Expire)
    {
      if state.timer == Armed {
        state := DeferredState(if state.outcome.Waiting? then TimedOut else state.outcome, Fired);
      }
    }
  }
}
