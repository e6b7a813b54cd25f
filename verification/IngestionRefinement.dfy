/** Runs of the ingestion machine as behaviours of the session that query and log pages read. */
module IngestionRefinement {
  import opened Common
  import opened DirectAppend
  import opened Ingestion
  import opened IngestionMachine
  import opened IngestionInvariants
  import Session = SessionSystem

  /** How an event is written as a line of the log. */
  type Renderer = Stored -> seq<byte>

  function Entries(render: Renderer, events: seq<Stored>): seq<Session.Entry>
  {
    seq(|events|, i requires 0 <= i < |events| => Session.Entry(render(events[i]), events[i].sequence))
  }

  /** Every event is written as a line in which serde_json finds its sequence. */
  ghost predicate Renders(classify: Session.Classifier, render: Renderer)
  {
    forall e: Stored :: Session.Stored(classify, Session.Entry(render(e), e.sequence))
  }

  /** One log, one counter; the number drawn and the clearings that run on are the same. */
  ghost predicate Shows(classify: Session.Classifier, render: Renderer, s: State, t: Session.State)
  {
    && Session.Inv(classify, t) && t.phase.Unlocked?
    && t.Log() == Entries(render, s.store.events)
    && t.counter == s.store.counter
    && t.drawn == (if s.work.Busy? && s.work.stage.HasNumber? then Some(s.work.stage.sequence) else None)
    && t.detached == s.pending[Events]
  }

  lemma {:induction false} SameMaximum(render: Renderer, events: seq<Stored>)
    ensures Session.Highest(Entries(render, events)) == MaximumSequence(events)
  {
    if events != [] {
      var last := |events| - 1;
      assert Entries(render, events)[..last] == Entries(render, events[..last]);
      SameMaximum(render, events[..last]);
    }
  }

  lemma {:induction false} Bounded(inodes: set<nat>) returns (bound: nat)
    ensures forall i | i in inodes :: i < bound
  {
    bound := 0;
    if inodes != {} {
      var i :| i in inodes;
      var rest := inodes - {i};
      bound := Bounded(rest);
      bound := Max(bound, i + 1);
      assert forall j | j in inodes :: j == i || j in rest;
    }
  }

  lemma {:induction false} LongerThanAll(names: set<string>) returns (name: string)
    ensures forall x | x in names :: |x| < |name|
  {
    name := "x";
    if names != {} {
      var x :| x in names;
      name := LongerThanAll(names - {x});
      if |x| >= |name| { name := x + "x"; }
    }
  }

  function Final(b: Session.Behaviour): Session.State
    requires b.states != []
  {
    b.states[|b.states| - 1]
  }

  function Still(t: Session.State): Session.Behaviour { Session.Behaviour([t], []) }

  lemma Then(classify: Session.Classifier, b: Session.Behaviour, step: Session.Step, t: Session.State)
    returns (longer: Session.Behaviour)
    requires Session.Valid(classify, b) && Session.Inv(classify, Final(b)) && Session.Next(classify, Final(b), step, t)
    ensures Session.Valid(classify, longer) && longer.states != []
    ensures longer.states[0] == b.states[0] && Final(longer) == t
    ensures Session.Inv(classify, t)
  {
    hide Session.Inv, Session.Next;
    Session.InvStep(classify, Final(b), step, t);
    longer := Session.Behaviour(b.states + [t], b.steps + [step]);
  }

  lemma Joined(classify: Session.Classifier, first: Session.Behaviour, second: Session.Behaviour)
    returns (b: Session.Behaviour)
    requires Session.Valid(classify, first) && Session.Valid(classify, second) && Final(first) == second.states[0]
    ensures Session.Valid(classify, b)
    ensures b == Session.Behaviour(first.states + second.states[1..], first.steps + second.steps)
  {
    hide Session.Inv, Session.Next;
    b := Session.Behaviour(first.states + second.states[1..], first.steps + second.steps);
    forall i | 0 <= i < |b.steps| ensures Session.Next(classify, b.states[i], b.steps[i], b.states[i + 1]) {
      if i >= |first.steps| {
        var k := i - |first.steps|;
        assert Session.Next(classify, second.states[k], second.steps[k], second.states[k + 1]);
      }
    }
  }

  /** What a step of the machine other than a reset does to the session. */
  function StepFor(render: Renderer, s: State, step: Step, after: State, inode: nat): Session.Step
  {
    match step
    case TakeNumber => Session.TakeNumber
    case AppendEvent =>
      if after.store.events == [] then Session.Other
      else
        var e := after.store.events[|after.store.events| - 1];
        Session.AppendEntry(Session.Entry(render(e), e.sequence))
    case Fail => if s.work.Busy? && s.work.stage.HasNumber? then Session.AppendFails else Session.Other
    case Restart => Session.Restart
    case Land(part) => if part == Events then Session.LateClear(inode) else Session.Other
    case Abandon(part) => if part == Events then Session.LateClearFails else Session.Other
    case _ => Session.Other
  }

  /** The session afterwards. */
  function StateFor(render: Renderer, t: Session.State, step: Session.Step): Session.State
  {
    match step
    case TakeNumber => t.(counter := Some(Session.NextSequence(t)), drawn := Some(Session.NextSequence(t)))
    case AppendEntry(entry) => t.(files := t.files[t.current := t.Log() + [entry]], drawn := None)
    case AppendFails => t.(drawn := None)
    case Restart => t.(counter := None, drawn := None, detached := 0)
    case LateClear(inode) =>
      t.(files := t.files[inode := []], current := inode, detached := if t.detached > 0 then t.detached - 1 else 0)
    case LateClearFails => t.(detached := if t.detached > 0 then t.detached - 1 else 0)
    case _ => t
  }

  lemma EventIsLine(classify: Session.Classifier, render: Renderer, e: Stored)
    requires Renders(classify, render)
    ensures Session.Stored(classify, Session.Entry(render(e), e.sequence))
  {
  }

  lemma EntriesSnoc(render: Renderer, events: seq<Stored>, e: Stored)
    ensures Entries(render, events + [e]) == Entries(render, events) + [Session.Entry(render(e), e.sequence)]
  {
  }

  /** The session can make the step that corresponds to `step`, and then shows the machine's state after it. */
  ghost predicate Allowed(
    classify: Session.Classifier, render: Renderer, s: State, step: Step, after: State, t: Session.State, inode: nat)
  {
    var now := StepFor(render, s, step, after, inode);
    var t' := StateFor(render, t, now);
    && Session.Next(classify, t, now, t')
    && (Session.Inv(classify, t') ==> Shows(classify, render, after, t'))
  }

  lemma TakeNumberAllowed(
    judge: Judge, classify: Session.Classifier, render: Renderer, s: State, step: Step, t: Session.State, inode: nat)
    requires Shows(classify, render, s, t) && Enabled(judge, s, step) && inode !in t.files
    requires step.TakeNumber?
    ensures Allowed(classify, render, s, step, Apply(judge, s, step), t, inode)
  {
    hide Tick, Good, Diagnosed, MaximumSequence, Session.Highest, Session.Stored, Renders, Entries, Session.Inv,
      Increasing;
    SameMaximum(render, s.store.events);
  }

  lemma AppendAllowed(
    judge: Judge, classify: Session.Classifier, render: Renderer, s: State, step: Step, t: Session.State, inode: nat)
    requires Shows(classify, render, s, t) && Enabled(judge, s, step) && inode !in t.files
    requires step.AppendEvent? && Renders(classify, render)
    ensures Allowed(classify, render, s, step, Apply(judge, s, step), t, inode)
  {
    hide Tick, Good, Diagnosed, MaximumSequence, Session.Highest, Session.Stored, Renders, Entries, Session.Inv,
      Increasing;
    var e := Apply(judge, s, step).store.events[|s.store.events|];
    EventIsLine(classify, render, e);
    EntriesSnoc(render, s.store.events, e);
  }

  lemma DiagnosticAllowed(
    judge: Judge, classify: Session.Classifier, render: Renderer, s: State, step: Step, t: Session.State, inode: nat)
    requires Shows(classify, render, s, t) && Enabled(judge, s, step) && inode !in t.files
    requires step.Diagnose? || step.ReportRedaction?
    ensures Allowed(classify, render, s, step, Apply(judge, s, step), t, inode)
  {
    hide Tick, Good, Diagnosed, MaximumSequence, Session.Highest, Session.Stored, Renders, Entries, Session.Inv,
      Increasing;
    var d := if step.Diagnose? then Diagnostic(s.work.todo[0].id, ReasonFor(judge, s.work.todo[0]))
             else Diagnostic(Random(step.n), SecretRedacted(s.work.todo[0].id));
    DiagnosedKeepsEvents(s.store, [d], true);
  }

  lemma LandingAllowed(
    judge: Judge, classify: Session.Classifier, render: Renderer, s: State, step: Step, t: Session.State, inode: nat)
    requires Shows(classify, render, s, t) && Enabled(judge, s, step) && inode !in t.files
    requires step.Land?
    ensures Allowed(classify, render, s, step, Apply(judge, s, step), t, inode)
  {
    hide Tick, Good, Diagnosed, MaximumSequence, Session.Highest, Session.Stored, Renders, Entries, Session.Inv,
      Increasing;
    NoEntries(render);
    OneFewer(s.pending, step.part);
  }

  lemma AbandonAllowed(
    judge: Judge, classify: Session.Classifier, render: Renderer, s: State, step: Step, t: Session.State, inode: nat)
    requires Shows(classify, render, s, t) && Enabled(judge, s, step) && inode !in t.files
    requires step.Abandon?
    ensures Allowed(classify, render, s, step, Apply(judge, s, step), t, inode)
  {
    hide Tick, Good, Diagnosed, MaximumSequence, Session.Highest, Session.Stored, Renders, Entries, Session.Inv,
      Increasing;
    OneFewer(s.pending, step.part);
  }

  lemma OneFewer(pending: multiset<Part>, part: Part)
    requires part in pending
    ensures (pending - multiset{part})[Events] == pending[Events] - if part == Events then 1 else 0
  {
  }

  /** The session allows every step but the two kinds of reset. */
  lemma OrdinaryStepAllowed(
    judge: Judge, classify: Session.Classifier, render: Renderer, s: State, step: Step, t: Session.State, inode: nat)
    requires Shows(classify, render, s, t) && Enabled(judge, s, step) && inode !in t.files
    requires !step.Reset? && !step.ResetFails? && NumbersOk(s) && Renders(classify, render)
    ensures Allowed(classify, render, s, step, Apply(judge, s, step), t, inode)
  {
    hide Tick, Good, Diagnosed, MaximumSequence, Session.Highest, Session.Stored, Renders, Entries, Session.Inv,
      Increasing;
    match step
    case TakeNumber => hide *; TakeNumberAllowed(judge, classify, render, s, step, t, inode);
    case AppendEvent => hide *; AppendAllowed(judge, classify, render, s, step, t, inode);
    case Diagnose => hide *; DiagnosticAllowed(judge, classify, render, s, step, t, inode);
    case ReportRedaction(_) => hide *; DiagnosticAllowed(judge, classify, render, s, step, t, inode);
    case Land(_) => hide *; LandingAllowed(judge, classify, render, s, step, t, inode);
    case Abandon(_) => hide *; AbandonAllowed(judge, classify, render, s, step, t, inode);
    case _ =>
  }

  lemma NoEntries(render: Renderer)
    ensures Entries(render, []) == []
  {
  }

  /** So does a reset that succeeds, in four steps. */
  lemma ResetShows(
    judge: Judge, classify: Session.Classifier, render: Renderer, s: State, t: Session.State, inode: nat,
    epoch: string)
    returns (b: Session.Behaviour)
    requires Shows(classify, render, s, t) && inode !in t.files && epoch !in t.used
    requires Enabled(judge, s, Reset)
    ensures Session.Valid(classify, b) && b.states != [] && b.states[0] == t
    ensures Shows(classify, render, Apply(judge, s, Reset), Final(b))
  {
    hide Session.Inv, Session.Valid, Entries;
    NoEntries(render);
    b := Begun(classify, t, epoch);
    b := Then(classify, b, Session.ClearEvents(inode), Emptied(Final(b), inode));
    b := Then(classify, b, Session.DropCounter, Dropped(Final(b)));
    b := Then(classify, b, Session.FinishReset, Final(b).(epoch := epoch, phase := Session.Unlocked));
  }

  lemma Begun(classify: Session.Classifier, t: Session.State, epoch: string) returns (b: Session.Behaviour)
    requires Session.Inv(classify, t) && t.Free() && epoch !in t.used
    ensures Session.Valid(classify, b) && b.states != [] && b.states[0] == t && Session.Inv(classify, Final(b))
    ensures Final(b) == t.(phase := Session.Resetting(epoch, false, false), used := t.used + {epoch})
  {
    b := Then(classify, Still(t), Session.BeginReset(epoch),
              t.(phase := Session.Resetting(epoch, false, false), used := t.used + {epoch}));
  }

  function Emptied(t: Session.State, inode: nat): Session.State
    requires t.phase.Resetting?
  {
    t.(files := t.files[inode := []], current := inode, phase := t.phase.(cleared := true))
  }

  function Dropped(t: Session.State): Session.State
    requires t.phase.Resetting?
  {
    t.(counter := None, phase := t.phase.(counterDropped := true))
  }

  /** A reset that fails is one that is aborted, having done as much of it as was done. */
  lemma FailedResetShows(
    judge: Judge, classify: Session.Classifier, render: Renderer, s: State, step: Step, t: Session.State, inode: nat,
    epoch: string)
    returns (b: Session.Behaviour)
    requires Shows(classify, render, s, t) && inode !in t.files && epoch !in t.used
    requires step.ResetFails? && Enabled(judge, s, step)
    ensures Session.Valid(classify, b) && b.states != [] && b.states[0] == t
    ensures Shows(classify, render, Apply(judge, s, step), Final(b))
  {
    hide Session.Inv, Session.Valid, Entries;
    NoEntries(render);
    b := Begun(classify, t, epoch);
    if Events !in step.undone {
      b := Then(classify, b, Session.ClearEvents(inode), Emptied(Final(b), inode));
      if step.dropped { b := Then(classify, b, Session.DropCounter, Dropped(Final(b))); }
    }
    var running := Events in step.late;
    b := Then(classify, b, Session.AbortReset(running),
              Final(b).(phase := Session.Unlocked, detached := Final(b).detached + if running then 1 else 0));
  }

  lemma AnyStepShows(
    judge: Judge, classify: Session.Classifier, render: Renderer, s: State, step: Step, t: Session.State)
    returns (b: Session.Behaviour)
    requires Renders(classify, render) && Shows(classify, render, s, t)
    requires Enabled(judge, s, step) && NumbersOk(s)
    ensures Session.Valid(classify, b) && b.states != [] && b.states[0] == t
    ensures Shows(classify, render, Apply(judge, s, step), Final(b))
  {
    var inode := Bounded(t.files.Keys);
    var epoch := LongerThanAll(t.used);
    if step.Reset? {
      b := ResetShows(judge, classify, render, s, t, inode, epoch);
    } else if step.ResetFails? {
      b := FailedResetShows(judge, classify, render, s, step, t, inode, epoch);
    } else {
      hide Session.Inv, Session.Next, Enabled, Apply, Renders;
      OrdinaryStepAllowed(judge, classify, render, s, step, t, inode);
      var now := StepFor(render, s, step, Apply(judge, s, step), inode);
      b := Then(classify, Still(t), now, StateFor(render, t, now));
    }
  }

  lemma StartShown(classify: Session.Classifier, render: Renderer, s: State, t: Session.State)
    requires Shows(classify, render, s, t)
    ensures Session.Valid(classify, Still(t))
  {
  }

  /** The state after the first `i` steps of a run. */
  ghost function StateAt(judge: Judge, s: State, steps: seq<Step>, i: nat): State
    requires Runs(judge, s, steps) && i <= |steps|
    decreases |steps|
  {
    if i == 0 then s else StateAt(judge, Apply(judge, s, steps[0]), steps[1..], i - 1)
  }

  /** Moments of a behaviour, in order, one for every state of a run. */
  ghost predicate Follows(
    judge: Judge, classify: Session.Classifier, render: Renderer, s: State, steps: seq<Step>, b: Session.Behaviour,
    at: seq<nat>)
    requires Runs(judge, s, steps)
  {
    && |at| == |steps| + 1
    && (forall i, j | 0 <= i <= j <= |steps| :: at[i] <= at[j] < |b.states|)
    && (forall i | 0 <= i <= |steps| :: Shows(classify, render, StateAt(judge, s, steps, i), b.states[at[i]]))
  }

  /** A new session shows the initial state. */
  lemma NewSession(classify: Session.Classifier, render: Renderer, epoch: string) returns (t: Session.State)
    ensures Shows(classify, render, INITIAL, t) && NumbersOk(INITIAL) && t.epoch == epoch && t.Log() == []
  {
    t := Session.State(map[0 := []], 0, epoch, {epoch}, None, None, Session.Unlocked, 0);
  }

  /** Every run of the machine is a behaviour of the session: ingestion, crashes, resets and their failures,
      in any order, are covered by what is proved about query and log pages. */
  lemma {:induction false} RunsAreBehaviours(
    judge: Judge, classify: Session.Classifier, render: Renderer, s: State, steps: seq<Step>, t: Session.State)
    returns (b: Session.Behaviour, at: seq<nat>)
    requires Renders(classify, render) && Shows(classify, render, s, t) && NumbersOk(s)
    requires Runs(judge, s, steps)
    ensures Session.Valid(classify, b) && b.states[0] == t
    ensures Follows(judge, classify, render, s, steps, b, at)
    decreases |steps|
  {
    hide Enabled, Apply, Shows, NumbersOk, Renders, Session.Inv, Session.Next;
    StartShown(classify, render, s, t);
    if steps == [] {
      return Still(t), [0];
    }
    var first := AnyStepShows(judge, classify, render, s, steps[0], t);
    NumbersStep(judge, s, steps[0]);
    var next := Apply(judge, s, steps[0]);
    var rest, later := RunsAreBehaviours(judge, classify, render, next, steps[1..], Final(first));
    b := Joined(classify, first, rest);
    var offset := |first.steps|;
    at := [0] + seq(|later|, i requires 0 <= i < |later| => later[i] + offset);
    forall i | 0 <= i <= |steps| ensures Shows(classify, render, StateAt(judge, s, steps, i), b.states[at[i]]) {
      if i > 0 {
        assert at[i] == later[i - 1] + offset;
      }
    }
  }

  /** In particular every run of a new session. */
  lemma NewSessionsRuns(
    judge: Judge, classify: Session.Classifier, render: Renderer, epoch: string, steps: seq<Step>)
    returns (b: Session.Behaviour, at: seq<nat>)
    requires Renders(classify, render) && Runs(judge, INITIAL, steps)
    ensures Session.Valid(classify, b) && b.states[0].epoch == epoch && b.states[0].Log() == []
    ensures Follows(judge, classify, render, INITIAL, steps, b, at)
  {
    var t := NewSession(classify, render, epoch);
    b, at := RunsAreBehaviours(judge, classify, render, INITIAL, steps, t);
  }
}
