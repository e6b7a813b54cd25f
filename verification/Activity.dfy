/** `ActivityTracker`: idle shutdown by a timer with generations, leases and re-arming. */
module Activity {
  import opened Common

  const IDLE_TIMEOUT: int := 30 * 60000

  /** A pending timeout: the generation its callback captured, and when it is due. */
  datatype Timer = Timer(generation: nat, due: int)

  /** `released` holds the flag of every lease closure handed out; `idleCalls` counts calls of `onIdle`. */
  datatype State = State(
    generation: nat, lastActivity: int, leases: int, stopped: bool, timer: Option<Timer>,
    released: seq<bool>, idleCalls: nat)

  /** Everything that can happen to a tracker, with the clock reading where the code takes one. Callbacks may
      come early, late, from cleared timers, and more than once. */
  datatype Event =
    | Touch(now: int)
    | Acquire
    | Release(lease: nat, now: int)
    | Stop
    | Callback(generation: nat, now: int)

  function Created(now: int): State
  {
    State(0, now, 0, false, Some(Timer(0, now + IDLE_TIMEOUT)), [], 0)
  }

  function Touched(s: State, now: int): State
  {
    if s.stopped then s
    else
      s.(lastActivity := now, generation := s.generation + 1,
         timer := if s.leases == 0 then Some(Timer(s.generation + 1, now + IDLE_TIMEOUT)) else s.timer)
  }

  function Apply(s: State, e: Event): State
  {
    match e
    case Touch(now) => Touched(s, now)
    case Acquire =>
      if s.stopped then s
      else s.(leases := s.leases + 1, generation := s.generation + 1, timer := None, released := s.released + [false])
    case Release(lease, now) =>
      if lease >= |s.released| || s.released[lease] || s.stopped then s
      else
        var s' := s.(released := s.released[lease := true], leases := s.leases - 1);
        if s'.leases == 0 then Touched(s', now) else s'
    case Stop =>
      if s.stopped then s else s.(stopped := true, generation := s.generation + 1, timer := None)
    case Callback(generation, now) =>
      if s.stopped || s.leases > 0 || generation != s.generation then s
      else
        var remaining := IDLE_TIMEOUT - (now - s.lastActivity);
        if remaining > 0 then s.(timer := Some(Timer(s.generation, now + remaining)))
        else s.(stopped := true, timer := None, idleCalls := s.idleCalls + 1)
  }

  class ActivityTracker {
    var generation: nat
    var lastActivity: int
    var leases: int
    var stopped: bool
    var timer: Option<Timer>
    var released: seq<bool>
    var idleCalls: nat

    ghost function Model(): State
      reads this
    {
      State(generation, lastActivity, leases, stopped, timer, released, idleCalls)
    }

    constructor (now: int)
      ensures Model() == Created(now)
    {
      generation, leases, stopped, released, idleCalls := 0, 0, false, [], 0;
      lastActivity := now;
      timer := None;
      new;
      ArmTimer(IDLE_TIMEOUT, now);
    }

    method ArmTimer(milliseconds: int, now: int)
      modifies this`timer
      ensures timer == Some(Timer(generation, now + milliseconds))
    {
      ClearTimer();
      timer := Some(Timer(generation, now + milliseconds));
    }

    method ClearTimer()
      modifies this`timer
      ensures timer == None
    {
      if timer.None? { return; }
      timer := None;
    }

    method TouchAt(now: int)
      modifies this
      ensures Model() == Apply(old(Model()), Touch(now))
    {
      if stopped { return; }
      lastActivity := now;
      generation := generation + 1;
      if leases == 0 { ArmTimer(IDLE_TIMEOUT, now); }
    }

    /** Hands out a lease closure; after `stop` the closure does nothing. */
    method AcquireLease() returns (lease: Option<nat>)
      modifies this
      ensures Model() == Apply(old(Model()), Acquire)
      ensures lease == if old(stopped) then None else Some(|old(released)|)
    {
      if stopped { return None; }
      leases := leases + 1;
      generation := generation + 1;
      ClearTimer();
      released := released + [false];
      return Some(|released| - 1);
    }

    method ReleaseLease(lease: nat, now: int)
      requires lease < |released|
      modifies this
      ensures Model() == Apply(old(Model()), Release(lease, now))
    {
      if released[lease] || stopped { return; }
      released := released[lease := true];
      leases := leases - 1;
      if leases == 0 { TouchAt(now); }
    }

    method StopNow()
      modifies this
      ensures Model() == Apply(old(Model()), Stop)
    {
      if stopped { return; }
      stopped := true;
      generation := generation + 1;
      ClearTimer();
    }

    method OnTimer(captured: nat, now: int)
      modifies this
      ensures Model() == Apply(old(Model()), Callback(captured, now))
    {
      if stopped || leases > 0 || captured != generation { return; }
      var remaining := IDLE_TIMEOUT - (now - lastActivity);
      if remaining > 0 {
        ArmTimer(remaining, now);
        return;
      }
      stopped := true;
      timer := None;
      idleCalls := idleCalls + 1;
    }
  }

  // --- what runs mean, without looking at the tracker's fields ---------------------------------------

  function After(created: int, events: seq<Event>): State
  {
    if events == [] then Created(created) else Apply(After(created, events[..|events| - 1]), events[|events| - 1])
  }

  /** Outstanding leases: closures handed out and not yet called. */
  function Outstanding(released: seq<bool>): nat
  {
    if released == [] then 0
    else Outstanding(released[..|released| - 1]) + if released[|released| - 1] then 0 else 1
  }

  lemma {:induction false} OutstandingRelease(released: seq<bool>, lease: nat)
    requires lease < |released| && !released[lease]
    ensures Outstanding(released[lease := true]) == Outstanding(released) - 1
  {
    var last := |released| - 1;
    if lease == last {
      assert released[lease := true][..last] == released[..last];
    } else {
      assert released[lease := true][..last] == released[..last][lease := true];
      OutstandingRelease(released[..last], lease);
    }
  }

  /** Whether an event counts as activity in the state it meets: a touch, or the release of the last lease. */
  predicate IsActivity(s: State, e: Event)
  {
    !s.stopped &&
    (e.Touch? || (e.Release? && e.lease < |s.released| && !s.released[e.lease] && Outstanding(s.released) == 1))
  }

  /** When the last activity happened. */
  function LastActive(created: int, events: seq<Event>): int
  {
    if events == [] then created
    else
      var before, e := events[..|events| - 1], events[|events| - 1];
      if IsActivity(After(created, before), e) then e.now else LastActive(created, before)
  }

  ghost predicate Inv(s: State)
  {
    && s.leases == Outstanding(s.released)
    && s.idleCalls <= 1
    && (s.stopped ==> s.timer.None?)
    && (!s.stopped ==>
          && s.idleCalls == 0
          && (s.timer.Some? <==> s.leases == 0)
          && (s.timer.Some? ==> s.timer.value == Timer(s.generation, s.lastActivity + IDLE_TIMEOUT)))
  }

  lemma InvStep(s: State, e: Event)
    requires Inv(s)
    ensures Inv(Apply(s, e))
    ensures Apply(s, e).lastActivity == if IsActivity(s, e) then e.now else s.lastActivity
  {
    if e.Release? && e.lease < |s.released| && !s.released[e.lease] {
      OutstandingRelease(s.released, e.lease);
    }
    if e.Acquire? { assert (s.released + [false])[..|s.released|] == s.released; }
  }

  /** Outside stop, a current-generation timer is pending exactly when no lease is outstanding, and it is due
      thirty minutes after the last activity; `onIdle` has run at most once, and only with the stop it makes. */
  lemma {:induction false} TimerTracksActivity(created: int, events: seq<Event>)
    ensures var s := After(created, events);
            && Inv(s) && s.lastActivity == LastActive(created, events)
            && (!s.stopped ==>
                  s.timer == if Outstanding(s.released) == 0
                             then Some(Timer(s.generation, LastActive(created, events) + 1_800_000)) else None)
            && s.idleCalls <= 1 && (s.idleCalls == 1 ==> s.stopped)
  {
    if events != [] {
      var before := events[..|events| - 1];
      TimerTracksActivity(created, before);
      InvStep(After(created, before), events[|events| - 1]);
    }
  }

  /** `onIdle` runs in exactly one situation: a callback of the current generation, with no lease outstanding,
      at least thirty minutes after the last activity, on a tracker that was never stopped. */
  lemma {:induction false} IdleExactlyWhen(created: int, events: seq<Event>, e: Event)
    ensures var s, s' := After(created, events), Apply(After(created, events), e);
            s'.idleCalls > s.idleCalls <==>
              && e.Callback? && e.generation == s.generation && !s.stopped
              && Outstanding(s.released) == 0
              && e.now - LastActive(created, events) >= 1_800_000
  {
    TimerTracksActivity(created, events);
  }

  /** A due timer is never lost: when the pending timer's own callback runs, either `onIdle` is called or
      the timer is pending again for the same due time. */
  lemma {:induction false} PendingTimerIsNotLost(created: int, events: seq<Event>, now: int)
    requires After(created, events).timer.Some?
    ensures var s := After(created, events);
            var s' := Apply(s, Callback(s.timer.value.generation, now));
            if now >= s.timer.value.due then s'.stopped && s'.idleCalls == 1 else s' == s
  {
    TimerTracksActivity(created, events);
  }

  /** A lease counts from the moment it is handed out until it is released, and no timer runs meanwhile. */
  lemma {:induction false} LeaseCounts(created: int, events: seq<Event>, lease: nat, now: int)
    requires !After(created, events).stopped
    ensures var s := After(created, events); var s' := Apply(s, Acquire);
            && |s'.released| == |s.released| + 1 && !s'.released[|s.released|]
            && Outstanding(s'.released) == Outstanding(s.released) + 1 && s'.timer == None && !s'.stopped
            && s'.lastActivity == s.lastActivity
    ensures var s := After(created, events); var s' := Apply(s, Release(lease, now));
            lease < |s.released| && !s.released[lease] ==>
              && s'.released == s.released[lease := true] && Outstanding(s'.released) == Outstanding(s.released) - 1
              && (s'.timer.Some? <==> Outstanding(s.released) == 1) && !s'.stopped
  {
    TimerTracksActivity(created, events);
    var s := After(created, events);
    assert (s.released + [false])[..|s.released|] == s.released;
    if lease < |s.released| && !s.released[lease] { OutstandingRelease(s.released, lease); }
  }

  /** A touch, a new lease and a stop make the callbacks of all earlier timers stale. */
  lemma StaleCallbacks(s: State, e: Event, generation: nat, now: int)
    requires generation <= s.generation && !s.stopped && (e.Touch? || e.Acquire? || e.Stop?)
    ensures Apply(Apply(s, e), Callback(generation, now)) == Apply(s, e)
    ensures Apply(s, e).generation > s.generation
  {
  }

  /** After a stop no timer is pending and `onIdle` does not run any more, whatever happens. */
  lemma {:induction false} StopStops(created: int, events: seq<Event>, later: seq<Event>)
    ensures var s := AfterFrom(Apply(After(created, events), Stop), later);
            s.stopped && s.timer == None && s.idleCalls == After(created, events).idleCalls
  {
    TimerTracksActivity(created, events);
    StoppedForGood(Apply(After(created, events), Stop), later);
  }

  /** Releasing a lease a second time, or after stop, changes nothing. */
  lemma ReleaseOnce(s: State, lease: nat, now: int, later: int)
    requires Inv(s) && lease < |s.released|
    ensures Apply(Apply(s, Release(lease, now)), Release(lease, later)) == Apply(s, Release(lease, now))
  {
  }

  /** Once stopped, nothing changes any more. */
  lemma {:induction false} StoppedForGood(s: State, events: seq<Event>)
    requires s.stopped
    ensures AfterFrom(s, events) == s
  {
    if events != [] { StoppedForGood(s, events[..|events| - 1]); }
  }

  function AfterFrom(s: State, events: seq<Event>): State
  {
    if events == [] then s else Apply(AfterFrom(s, events[..|events| - 1]), events[|events| - 1])
  }
}
