/** `Persistence.runSessionOperation`: a promise chain per session as a re-entrant FIFO lock. */
module SessionLock {
  import opened Common

  datatype Stage = Waiting | Running | Finished(succeeded: bool)

  /** One outer call. `previous` is the promise it chains on (none: an already resolved promise), `settled`
      says that its own `settled` promise has resolved, `cleaned` that its `finally` block has run. `nested`
      counts the calls running inline inside it; a rejected `Promise.all` ends an operation before them. */
  datatype Operation = Operation(
    session: string, previous: Option<nat>, stage: Stage, nested: nat, settled: bool, cleaned: bool)
  {
    /** Code of this operation, or of a call inside it, may still run. */
    predicate Active() { stage.Running? || nested > 0 }

    /** The operation has ended and left calls behind. */
    predicate LeftBehind() { stage.Finished? && nested > 0 }
  }

  /** `ops` are the outer operations in order of arrival; `operations` maps a session to its tail promise. */
  datatype State = State(ops: seq<Operation>, operations: map<string, nat>)

  datatype Event =
    | Arrive(session: string)
    | Start(op: nat)
    | EnterNested(op: nat)
    | LeaveNested(op: nat)
    | Finish(op: nat, succeeded: bool)
    | Settle(op: nat)
    | CleanUp(op: nat)

  function Init(): State { State([], map[]) }

  predicate Enabled(s: State, e: Event)
  {
    match e
    case Arrive(_) => true
    case Start(i) =>
      && i < |s.ops| && s.ops[i].stage.Waiting?
      && (s.ops[i].previous.Some? ==> s.ops[i].previous.value < |s.ops| && s.ops[s.ops[i].previous.value].settled)
    case EnterNested(i) => i < |s.ops| && s.ops[i].Active()
    case LeaveNested(i) => i < |s.ops| && s.ops[i].nested > 0
    case Finish(i, _) => i < |s.ops| && s.ops[i].stage.Running?
    case Settle(i) => i < |s.ops| && s.ops[i].stage.Finished? && !s.ops[i].settled
    case CleanUp(i) => i < |s.ops| && s.ops[i].stage.Finished? && !s.ops[i].cleaned
  }

  function Apply(s: State, e: Event): State
    requires Enabled(s, e)
  {
    match e
    case Arrive(session) =>
      var previous := if session in s.operations then Some(s.operations[session]) else None;
      State(s.ops + [Operation(session, previous, Waiting, 0, false, false)], s.operations[session := |s.ops|])
    case Start(i) => s.(ops := s.ops[i := s.ops[i].(stage := Running)])
    case EnterNested(i) => s.(ops := s.ops[i := s.ops[i].(nested := s.ops[i].nested + 1)])
    case LeaveNested(i) => s.(ops := s.ops[i := s.ops[i].(nested := s.ops[i].nested - 1)])
    case Finish(i, succeeded) => s.(ops := s.ops[i := s.ops[i].(stage := Finished(succeeded))])
    case Settle(i) => s.(ops := s.ops[i := s.ops[i].(settled := true)])
    case CleanUp(i) =>
      var session := s.ops[i].session;
      State(s.ops[i := s.ops[i].(cleaned := true)],
            if session in s.operations && s.operations[session] == i then s.operations - {session} else s.operations)
  }

  /** No operation of `session` arrived before number `n` and is still unfinished. */
  ghost predicate AllFinishedBefore(s: State, session: string, n: nat)
  {
    forall j | 0 <= j < n && j < |s.ops| && s.ops[j].session == session :: s.ops[j].stage.Finished?
  }

  /** `p` is the last operation of `session` before number `n`. */
  ghost predicate LastBefore(s: State, session: string, p: nat, n: nat)
  {
    p < n <= |s.ops| && s.ops[p].session == session && forall j | p < j < n :: s.ops[j].session != session
  }

  ghost predicate OpInv(s: State, i: nat)
    requires i < |s.ops|
  {
    var op := s.ops[i];
    && (op.previous.Some? ==> LastBefore(s, op.session, op.previous.value, i))
    && (op.previous.None? ==> AllFinishedBefore(s, op.session, i))
    && (!op.stage.Waiting? ==> AllFinishedBefore(s, op.session, i))
    && (op.settled || op.cleaned ==> op.stage.Finished?)
    && (op.stage.Waiting? ==> op.nested == 0)
  }

  ghost predicate Inv(s: State)
  {
    && (forall i | 0 <= i < |s.ops| :: OpInv(s, i))
    && (forall x | x in s.operations ::
          LastBefore(s, x, s.operations[x], |s.ops|) && !s.ops[s.operations[x]].cleaned)
    && (forall i | 0 <= i < |s.ops| && !s.ops[i].stage.Finished? :: s.ops[i].session in s.operations)
  }

  lemma InvArrive(s: State, session: string)
    requires Inv(s)
    ensures Inv(Apply(s, Arrive(session)))
  {
    var s' := Apply(s, Arrive(session));
    var n := |s.ops|;
    forall i | 0 <= i < |s'.ops| ensures OpInv(s', i) {
      if i < n {
        assert OpInv(s, i);
        assert s'.ops[i] == s.ops[i];
      } else if session !in s.operations {
        assert AllFinishedBefore(s', session, n);
      }
    }
  }

  lemma InvStart(s: State, i: nat)
    requires Inv(s) && Enabled(s, Start(i))
    ensures Inv(Apply(s, Start(i)))
  {
    var s' := Apply(s, Start(i));
    assert OpInv(s, i);
    if s.ops[i].previous.Some? { assert OpInv(s, s.ops[i].previous.value); }
    forall k | 0 <= k < |s'.ops| ensures OpInv(s', k) {
      assert OpInv(s, k);
    }
  }

  /** Operation `i` only moves on, and stays consistent with itself. */
  ghost predicate MovesOn(before: Operation, after: Operation)
  {
    && after.session == before.session && after.previous == before.previous && after.cleaned == before.cleaned
    && (before.stage.Waiting? <==> after.stage.Waiting?)
    && (before.stage.Finished? || after.settled ==> after.stage.Finished?)
    && (after.stage.Waiting? ==> after.nested == 0)
  }

  lemma InvMove(s: State, i: nat, after: Operation)
    requires Inv(s) && i < |s.ops| && MovesOn(s.ops[i], after)
    ensures Inv(s.(ops := s.ops[i := after]))
  {
    var s' := s.(ops := s.ops[i := after]);
    forall k | 0 <= k < |s'.ops| ensures OpInv(s', k) {
      assert OpInv(s, k);
    }
  }

  lemma InvStage(s: State, e: Event)
    requires Inv(s) && Enabled(s, e) && (e.EnterNested? || e.LeaveNested? || e.Finish? || e.Settle?)
    ensures Inv(Apply(s, e))
  {
    assert OpInv(s, e.op);
    InvMove(s, e.op, Apply(s, e).ops[e.op]);
  }

  lemma InvCleanUp(s: State, i: nat)
    requires Inv(s) && Enabled(s, CleanUp(i))
    ensures Inv(Apply(s, CleanUp(i)))
  {
    var s' := Apply(s, CleanUp(i));
    forall k | 0 <= k < |s'.ops| ensures OpInv(s', k) {
      assert OpInv(s, k);
    }
    assert OpInv(s, i);
    forall k | 0 <= k < |s'.ops| && !s'.ops[k].stage.Finished? ensures s'.ops[k].session in s'.operations {
      if s.ops[k].session == s.ops[i].session { assert OpInv(s, k); }
    }
  }

  lemma InvStep(s: State, e: Event)
    requires Inv(s) && Enabled(s, e)
    ensures Inv(Apply(s, e))
  {
    match e
    case Arrive(session) => InvArrive(s, session);
    case Start(i) => InvStart(s, i);
    case CleanUp(i) => InvCleanUp(s, i);
    case _ => InvStage(s, e);
  }

  /** The state after a run of events, each enabled when it happens. */
  ghost predicate Run(events: seq<Event>, s: State)
  {
    if events == [] then s == Init()
    else
      var last := |events| - 1;
      exists before :: Run(events[..last], before) && Enabled(before, events[last]) && s == Apply(before, events[last])
  }

  lemma {:induction false} InvAlways(events: seq<Event>, s: State)
    requires Run(events, s)
    ensures Inv(s)
  {
    hide Inv;
    if events == [] {
      InvInit();
    } else {
      var last := |events| - 1;
      var before :| Run(events[..last], before) && Enabled(before, events[last]) && s == Apply(before, events[last]);
      InvAlways(events[..last], before);
      InvStep(before, events[last]);
    }
  }

  lemma InvInit()
    ensures Inv(Init())
  {
  }

  lemma Ordered(s: State, i: nat, j: nat)
    requires Inv(s) && i < j < |s.ops| && s.ops[i].session == s.ops[j].session && !s.ops[j].stage.Waiting?
    ensures s.ops[i].stage.Finished?
  {
    assert OpInv(s, j);
  }

  lemma ActiveIsNotWaiting(s: State, i: nat)
    requires Inv(s) && i < |s.ops| && s.ops[i].Active()
    ensures !s.ops[i].stage.Waiting?
  {
    assert OpInv(s, i);
  }

  /** In every reachable state at most one outer operation per session runs, an operation starts only after
      every earlier arrival of its session has finished (successfully or not), an absent map entry means
      that nothing of the session is pending, and a present one belongs to the last arrival, not yet cleaned.
      Code of an earlier operation beside a later one belongs to calls the earlier one left behind. */
  lemma {:induction false} ReachableStates(events: seq<Event>, s: State)
    requires Run(events, s)
    ensures Inv(s)
    ensures forall i, j | 0 <= i < j < |s.ops| && s.ops[i].session == s.ops[j].session ::
      !s.ops[j].stage.Waiting? ==> s.ops[i].stage.Finished?
    ensures forall i, j | 0 <= i < |s.ops| && 0 <= j < |s.ops| && s.ops[i].session == s.ops[j].session ::
      s.ops[i].stage.Running? && s.ops[j].stage.Running? ==> i == j
    ensures forall i, j | 0 <= i < j < |s.ops| && s.ops[i].session == s.ops[j].session ::
      s.ops[i].Active() && s.ops[j].Active() ==> s.ops[i].LeftBehind()
    ensures forall i | 0 <= i < |s.ops| :: s.ops[i].session !in s.operations ==> s.ops[i].stage.Finished?
    ensures forall x | x in s.operations ::
      s.operations[x] < |s.ops| && s.ops[s.operations[x]].session == x && !s.ops[s.operations[x]].cleaned
  {
    hide OpInv;
    InvAlways(events, s);
    forall i, j | 0 <= i < j < |s.ops| && s.ops[i].session == s.ops[j].session && !s.ops[j].stage.Waiting?
      ensures s.ops[i].stage.Finished?
    {
      Ordered(s, i, j);
    }
    forall i | 0 <= i < |s.ops| && s.ops[i].Active() ensures !s.ops[i].stage.Waiting? {
      ActiveIsNotWaiting(s, i);
    }
  }

  lemma Extended(events: seq<Event>, s: State, e: Event) returns (longer: seq<Event>, after: State)
    requires Run(events, s) && Enabled(s, e)
    ensures Run(longer, after) && after == Apply(s, e)
  {
    longer, after := events + [e], Apply(s, e);
    assert longer[..|events|] == events;
  }

  /** Only the operation's own end leaves calls behind: some step of the run finished it with calls outstanding.
      So code of two operations of a session never overlaps where each awaits the calls it makes. */
  lemma {:induction false} LeftBehindByFinish(events: seq<Event>, s: State, i: nat) returns (k: nat, before: State)
    requires Run(events, s) && i < |s.ops| && s.ops[i].LeftBehind()
    ensures k < |events| && events[k].Finish? && events[k].op == i
    ensures Run(events[..k], before) && i < |before.ops| && before.ops[i].nested > 0
  {
    var last := |events| - 1;
    before :| Run(events[..last], before) && Enabled(before, events[last]) && s == Apply(before, events[last]);
    hide Run;
    if i < |before.ops| && before.ops[i].LeftBehind() {
      k, before := LeftBehindByFinish(events[..last], before, i);
      assert events[..last][..k] == events[..k];
    } else {
      LeavesBehind(before, events[last], i);
      k := last;
    }
  }

  lemma LeavesBehind(s: State, e: Event, i: nat)
    requires Enabled(s, e) && i < |Apply(s, e).ops| && Apply(s, e).ops[i].LeftBehind()
    requires i < |s.ops| ==> !s.ops[i].LeftBehind()
    ensures e.Finish? && e.op == i < |s.ops| && s.ops[i].nested > 0
  {
  }

  /** An operation fails while a call inside it still runs, and the next one starts beside that call. */
  lemma OverlapExample(session: string) returns (events: seq<Event>, s: State)
    ensures Run(events, s) && |s.ops| == 2
    ensures forall i | 0 <= i < 2 :: s.ops[i].session == session && s.ops[i].Active()
  {
    events, s := [], Init();
    events, s := Extended(events, s, Arrive(session));
    events, s := Extended(events, s, Start(0));
    events, s := Extended(events, s, EnterNested(0));
    events, s := Extended(events, s, Finish(0, false));
    events, s := Extended(events, s, Settle(0));
    events, s := Extended(events, s, Arrive(session));
    events, s := Extended(events, s, Start(1));
  }

  /** Whether an event lets operations proceed without a new call. */
  predicate Progresses(e: Event) { !e.Arrive? && !e.EnterNested? }

  /** No deadlock: while an operation of a session is unfinished, some step of that session is possible. */
  lemma SomethingCanHappen(s: State, session: string, i: nat) returns (e: Event)
    requires Inv(s) && i < |s.ops| && s.ops[i].session == session && !s.ops[i].stage.Finished?
    ensures Enabled(s, e) && Progresses(e)
    ensures e.op < |s.ops| && s.ops[e.op].session == session
    decreases i
  {
    if j :| 0 <= j < i && s.ops[j].session == session && !s.ops[j].stage.Finished? {
      e := SomethingCanHappen(s, session, j);
    } else {
      assert OpInv(s, i);
      var op := s.ops[i];
      if op.stage.Running? {
        e := if op.nested > 0 then LeaveNested(i) else Finish(i, true);
      } else if op.previous.Some? && !s.ops[op.previous.value].settled {
        e := Settle(op.previous.value);
      } else {
        e := Start(i);
      }
    }
  }

  function Effort(op: Operation): nat
  {
    (match op.stage case Waiting => 2 case Running => 1 case Finished(_) => 0) + op.nested
    + (if op.settled then 0 else 1) + (if op.cleaned then 0 else 1)
  }

  function Work(ops: seq<Operation>): nat
  {
    if ops == [] then 0 else Work(ops[..|ops| - 1]) + Effort(ops[|ops| - 1])
  }

  lemma {:induction false} WorkUpdate(ops: seq<Operation>, i: nat, op: Operation)
    requires i < |ops|
    ensures Work(ops[i := op]) == Work(ops) - Effort(ops[i]) + Effort(op)
  {
    var last := |ops| - 1;
    if i == last {
      assert ops[i := op][..last] == ops[..last];
    } else {
      assert ops[i := op][..last] == ops[..last][i := op];
      WorkUpdate(ops[..last], i, op);
    }
  }

  /** Without new calls the remaining work shrinks with every step, so every queued operation gets its turn. */
  lemma ProgressTerminates(s: State, e: Event)
    requires Inv(s) && Enabled(s, e) && Progresses(e)
    ensures Work(Apply(s, e).ops) < Work(s.ops)
  {
    assert OpInv(s, e.op);
    WorkUpdate(s.ops, e.op, Apply(s, e).ops[e.op]);
  }

  /** When every operation of a session has been cleaned up, its map entry is gone. */
  lemma MapCleansItself(s: State, session: string)
    requires Inv(s)
    requires forall i | 0 <= i < |s.ops| && s.ops[i].session == session :: s.ops[i].cleaned
    ensures session !in s.operations
  {
  }

  /** The map and the promises behind it, changed by the pieces of `runSessionOperation`. */
  class Persistence {
    var operations: map<string, nat>
    var ops: seq<Operation>

    ghost function Model(): State
      reads this
    {
      State(ops, operations)
    }

    constructor ()
      ensures Model() == Init()
    {
      operations, ops := map[], [];
    }

    /** The synchronous part of a call: `active` is the session of the calling operation, if any. A call
        inside an operation of the same session runs inline and leaves the queue alone. */
    method RunSessionOperation(session: string, active: Option<nat>) returns (outer: bool)
      requires Inv(Model())
      requires active.Some? ==> active.value < |ops| && ops[active.value].Active()
      modifies this
      ensures Inv(Model())
      ensures outer <==> active.None? || old(ops)[active.value].session != session
      ensures outer ==> Model() == Apply(old(Model()), Arrive(session))
      ensures !outer ==> Model() == Apply(old(Model()), EnterNested(active.value))
    {
      if active.Some? && ops[active.value].session == session {
        InvStep(Model(), EnterNested(active.value));
        var op := ops[active.value];
        ops := ops[active.value := op.(nested := op.nested + 1)];
        return false;
      }
      InvStep(Model(), Arrive(session));
      var previous := None;
      if session in operations { previous := Some(operations[session]); }
      var id := |ops|;
      ops := ops + [Operation(session, previous, Waiting, 0, false, false)];
      operations := operations[session := id];
      return true;
    }

    /** The `finally` block: the entry is deleted only if it is still this call's own. */
    method FinallyBlock(id: nat)
      requires Inv(Model()) && Enabled(Model(), CleanUp(id))
      modifies this
      ensures Inv(Model()) && Model() == Apply(old(Model()), CleanUp(id))
    {
      InvStep(Model(), CleanUp(id));
      var session := ops[id].session;
      if session in operations && operations[session] == id {
        operations := operations - {session};
      }
      ops := ops[id := ops[id].(cleaned := true)];
    }
  }
}
