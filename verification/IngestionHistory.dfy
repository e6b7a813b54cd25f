/** Two promises the code does not always keep, and exactly when it does: sequence numbers without gaps, and a
    report for every redacted event. */
module IngestionHistory {
  import opened Common
  import opened DirectAppend
  import opened Ingestion
  import opened IngestionMachine
  import opened IngestionInvariants
  import opened ExactlyOnce

  /** What a run has done since the last clearing: `wasted`, the daemon holds a number that is not in the log;
      `gap`, an event was appended while it did; `unreported`, the redacted events between which and their report
      it stopped, or whose reports were cleared without them. */
  datatype History = History(wasted: bool, gap: bool, unreported: set<Id>)

  const NOTHING := History(false, false, {})

  /** The counter has gone past some number, not counting one that is about to be stored. */
  predicate Counting(s: State)
  {
    s.store.counter.Some? && s.store.counter.value > if s.work.Busy? && s.work.stage.HasNumber? then 1 else 0
  }

  function RedactedIds(events: seq<Stored>): set<Id> { set e | e in events && e.redacted :: e.id }

  /** The event whose report comes next. */
  function Underway(w: Work): set<Id> { if Interrupts(w) then {w.todo[0].id} else {} }

  /** Events under way whose report is dropped when the daemon stops now. */
  ghost function Dropped(s: State): set<Id>
  {
    set id | id in Underway(s.work) && id in RedactedIds(s.store.events) && !Reported(s.store.diagnostics, id)
  }

  ghost function Recorded(judge: Judge, h: History, s: State, step: Step): History
    requires Enabled(judge, s, step)
  {
    match step
    case AppendEvent =>  // an event stored once more gets another chance
      var again := judge(s.work.todo[0].content).Valid? && judge(s.work.todo[0].content).redacts;
      History(false, h.gap || h.wasted, h.unreported - if again then {s.work.todo[0].id} else {})
    case Fail =>
      h.(wasted := h.wasted || (s.work.Busy? && s.work.stage.HasNumber?), unreported := h.unreported + Dropped(s))
    case Restart => h.(wasted := false, unreported := h.unreported + Dropped(s))
    case Reset => NOTHING
    case ResetFails(undone, _, dropped) =>  // the log is cleared, but the counter goes on unless it was dropped too
      if Events in undone then
        h.(unreported := if Diagnostics in undone then h.unreported else RedactedIds(s.store.events))
      else History(Counting(s) && !dropped, false, {})
    case Land(Events) => History(Counting(s), false, {})
    case Land(Diagnostics) => h.(unreported := RedactedIds(s.store.events) - Underway(s.work))
    case _ => h
  }

  predicate Interrupts(w: Work) { w.Busy? && w.todo != [] && w.stage.HasEvent? }

  ghost function HistoryOf(judge: Judge, s: State, h: History, steps: seq<Step>): History
    requires Runs(judge, s, steps)
    decreases |steps|
  {
    if steps == [] then h else HistoryOf(judge, Apply(judge, s, steps[0]), Recorded(judge, h, s, steps[0]), steps[1..])
  }

  /** The numbers are 1, 2, 3, ... */
  ghost predicate Dense(events: seq<Stored>) { forall i | 0 <= i < |events| :: events[i].sequence == i + 1 }

  // --- gaps ---------------------------------------------------------------------------------------------------

  /** A number the counter is ahead of the log by, not counting one that is about to be stored. */
  predicate Ahead(s: State)
  {
    && s.store.counter.Some?
    && s.store.counter.value - (if s.work.Busy? && s.work.stage.HasNumber? then 1 else 0)
       > MaximumSequence(s.store.events)
  }

  ghost predicate NumbersTracked(s: State, h: History)
  {
    (h.wasted <==> Ahead(s)) && (h.gap <==> MaximumSequence(s.store.events) > |s.store.events|)
  }

  lemma {:induction false} DenseIff(events: seq<Stored>)
    requires Increasing(events)
    ensures MaximumSequence(events) >= |events|
    ensures Dense(events) <==> MaximumSequence(events) == |events|
    ensures events != [] ==> MaximumSequence(events) == events[|events| - 1].sequence
  {
    if events != [] {
      var front := events[..|events| - 1];
      DenseIff(front);
      if Dense(events) { assert Dense(front); }
      if MaximumSequence(events) == |events| {
        assert front != [] ==> front[|front| - 1].sequence < events[|events| - 1].sequence;
        assert Dense(front);
      }
    }
  }

  lemma NumbersTrackedDiagnosed(judge: Judge, s: State, h: History, step: Step)
    requires Enabled(judge, s, step) && NumbersOk(s) && NumbersTracked(s, h)
    requires step.Diagnose? || step.ReportRedaction?
    ensures NumbersTracked(Apply(judge, s, step), Recorded(judge, h, s, step))
  {
    hide Increasing, MaximumSequence, Tick, Diagnosed, Good;
    DenseIff(s.store.events);
    var d := if step.Diagnose? then Diagnostic(s.work.todo[0].id, ReasonFor(judge, s.work.todo[0]))
             else Diagnostic(Random(step.n), SecretRedacted(s.work.todo[0].id));
    DiagnosedKeepsEvents(s.store, [d], true);
  }

  lemma NumbersTrackedAppended(judge: Judge, s: State, h: History, step: Step)
    requires Enabled(judge, s, step) && NumbersOk(s) && NumbersTracked(s, h)
    requires step.AppendEvent?
    ensures NumbersTracked(Apply(judge, s, step), Recorded(judge, h, s, step))
  {
    hide Increasing, MaximumSequence, Tick, Diagnosed, Good;
    DenseIff(s.store.events);
    HigherNumber(s.store.events, Apply(judge, s, step).store.events[|s.store.events|]);
  }

  lemma NumbersTrackedReset(judge: Judge, s: State, h: History, step: Step)
    requires Enabled(judge, s, step) && NumbersOk(s) && NumbersTracked(s, h)
    requires step.Reset?
    ensures NumbersTracked(Apply(judge, s, step), Recorded(judge, h, s, step))
  {
    hide Increasing, MaximumSequence, Tick, Diagnosed, Good, Blank, Harmless, LandsHarmlessly;
    DenseIff(s.store.events);
    NothingStored();
  }

  lemma NumbersTrackedFailedReset(judge: Judge, s: State, h: History, step: Step)
    requires Enabled(judge, s, step) && NumbersOk(s) && NumbersTracked(s, h)
    requires step.ResetFails?
    ensures NumbersTracked(Apply(judge, s, step), Recorded(judge, h, s, step))
  {
    hide Increasing, MaximumSequence, Tick, Diagnosed, Good, Blank, Harmless, LandsHarmlessly;
    DenseIff(s.store.events);
    NothingStored();
  }

  lemma NumbersTrackedLanding(judge: Judge, s: State, h: History, step: Step)
    requires Enabled(judge, s, step) && NumbersOk(s) && NumbersTracked(s, h)
    requires step.Land?
    ensures NumbersTracked(Apply(judge, s, step), Recorded(judge, h, s, step))
  {
    hide Increasing, MaximumSequence, Tick, Diagnosed, Good, Blank, Harmless, LandsHarmlessly;
    DenseIff(s.store.events);
    NothingStored();
  }

  lemma NumbersTrackedOtherwise(judge: Judge, s: State, h: History, step: Step)
    requires Enabled(judge, s, step) && NumbersOk(s) && NumbersTracked(s, h)
    requires !step.Diagnose? && !step.ReportRedaction? && !step.AppendEvent? && Ordinary(step)
    ensures NumbersTracked(Apply(judge, s, step), Recorded(judge, h, s, step))
  {
    hide Increasing, MaximumSequence, Tick, Diagnosed, Good;
    DenseIff(s.store.events);
  }

  lemma NumbersTrackedStep(judge: Judge, s: State, h: History, step: Step)
    requires Enabled(judge, s, step) && NumbersOk(s) && NumbersTracked(s, h)
    ensures NumbersTracked(Apply(judge, s, step), Recorded(judge, h, s, step))
  {
    hide Enabled, Apply, NumbersOk, NumbersTracked, Recorded;
    if step.Diagnose? || step.ReportRedaction? {
      NumbersTrackedDiagnosed(judge, s, h, step);
    } else if step.AppendEvent? {
      NumbersTrackedAppended(judge, s, h, step);
    } else if step.Reset? {
      NumbersTrackedReset(judge, s, h, step);
    } else if step.ResetFails? {
      NumbersTrackedFailedReset(judge, s, h, step);
    } else if step.Land? {
      NumbersTrackedLanding(judge, s, h, step);
    } else {
      NumbersTrackedOtherwise(judge, s, h, step);
    }
  }

  // --- reports ------------------------------------------------------------------------------------------------

  /** Redacted events without a report, and none about to come. */
  ghost predicate ReportsTracked(s: State, unreported: set<Id>)
  {
    forall id :: id in unreported <==>
      id in RedactedIds(s.store.events) && !Reported(s.store.diagnostics, id) && id !in Underway(s.work)
  }

  /** Identifiers in use were drawn before, remembered ones included. */
  ghost predicate KnownDrawn(s: State)
  {
    && (forall d | d in s.store.diagnostics :: Drawn(d.id, s.random))
    && (s.store.diagnosticIds.Some? ==> forall id | id in s.store.diagnosticIds.value :: Drawn(id, s.random))
    && (s.work.Busy? ==> forall i | i in s.work.todo :: Drawn(i.id, s.random))
  }

  lemma DiagnosedDrawn(s: Store, d: Diagnostic, random: nat)
    requires Drawn(d.id, random)
    requires forall x | x in s.diagnostics :: Drawn(x.id, random)
    requires s.diagnosticIds.Some? ==> forall id | id in s.diagnosticIds.value :: Drawn(id, random)
    ensures var after := Diagnosed(s, [d], true).0;
            && (forall x | x in after.diagnostics :: Drawn(x.id, random))
            && after.diagnosticIds.Some? && (forall id | id in after.diagnosticIds.value :: Drawn(id, random))
  {
    assert Unseen(s.KnownDiagnostics(), [d]) == if d.id in s.KnownDiagnostics() then [] else [d];
  }

  lemma KnownDrawnStep(judge: Judge, s: State, step: Step)
    requires Enabled(judge, s, step) && KnownDrawn(s) && NumbersOk(s)
    ensures KnownDrawn(Apply(judge, s, step))
  {
    hide Tick, Diagnosed, Good, Blank, Harmless, LandsHarmlessly, Increasing, MaximumSequence, EventIds;
    match step
    case Diagnose =>
      var d := Diagnostic(s.work.todo[0].id, ReasonFor(judge, s.work.todo[0]));
      DiagnosedDrawn(s.store, d, s.random);
    case ReportRedaction(n) =>
      DiagnosedDrawn(s.store, Diagnostic(Random(n), SecretRedacted(s.work.todo[0].id)), n + 1);
    case _ =>
  }

  /** How diagnostics change what is reported. */
  lemma DiagnosedReports(s: Store, d: Diagnostic)
    ensures var after := Diagnosed(s, [d], true).0;
            && after.events == s.events
            && (!d.reason.SecretRedacted? ==>
                  forall id :: Reported(after.diagnostics, id) <==> Reported(s.diagnostics, id))
            && (d.id !in s.KnownDiagnostics() ==>
                  forall id ::
                    Reported(after.diagnostics, id) <==> Reported(s.diagnostics, id) || d.reason == SecretRedacted(id))
  {
    assert Unseen(s.KnownDiagnostics(), [d]) == if d.id in s.KnownDiagnostics() then [] else [d];
    assert forall x :: x in s.diagnostics + [d] <==> x in s.diagnostics || x == d;
  }

  lemma ReportsDiagnosed(judge: Judge, s: State, h: History, step: Step)
    requires Enabled(judge, s, step) && KnownDrawn(s) && ReportsTracked(s, h.unreported)
    requires step.Diagnose? || step.ReportRedaction?
    ensures ReportsTracked(Apply(judge, s, step), Recorded(judge, h, s, step).unreported)
  {
    var d := if step.Diagnose? then Diagnostic(s.work.todo[0].id, ReasonFor(judge, s.work.todo[0]))
             else Diagnostic(Random(step.n), SecretRedacted(s.work.todo[0].id));
    DiagnosedReports(s.store, d);
    assert step.ReportRedaction? ==> d.id !in s.store.KnownDiagnostics();
    hide Reported, RedactedIds, Diagnosed, Good, KnownDrawn;
  }

  lemma RedactedSnoc(events: seq<Stored>, e: Stored)
    ensures RedactedIds(events + [e]) == RedactedIds(events) + if e.redacted then {e.id} else {}
  {
    assert forall x :: x in events + [e] <==> x in events || x == e;
  }

  lemma ReportsAppended(judge: Judge, s: State, h: History, step: Step)
    requires Enabled(judge, s, step) && ReportsTracked(s, h.unreported) && step.AppendEvent?
    ensures ReportsTracked(Apply(judge, s, step), Recorded(judge, h, s, step).unreported)
  {
    hide Reported, RedactedIds;
    RedactedSnoc(s.store.events, Apply(judge, s, step).store.events[|s.store.events|]);
  }

  lemma ReportsReset(judge: Judge, s: State, h: History, step: Step)
    requires Enabled(judge, s, step) && ReportsTracked(s, h.unreported) && step.Reset?
    ensures ReportsTracked(Apply(judge, s, step), Recorded(judge, h, s, step).unreported)
  {
    NothingReported();
    hide Reported, RedactedIds, Blank, Harmless, LandsHarmlessly, Counting;
  }

  lemma ReportsFailedReset(judge: Judge, s: State, h: History, step: Step)
    requires Enabled(judge, s, step) && ReportsTracked(s, h.unreported) && step.ResetFails?
    ensures ReportsTracked(Apply(judge, s, step), Recorded(judge, h, s, step).unreported)
  {
    NothingReported();
    hide Reported, RedactedIds, Blank, Harmless, LandsHarmlessly, Counting;
  }

  lemma ReportsLanding(judge: Judge, s: State, h: History, step: Step)
    requires Enabled(judge, s, step) && ReportsTracked(s, h.unreported) && step.Land?
    ensures ReportsTracked(Apply(judge, s, step), Recorded(judge, h, s, step).unreported)
  {
    NothingReported();
    hide Reported, RedactedIds, Blank, Harmless, LandsHarmlessly, Counting;
  }

  lemma NothingReported()
    ensures RedactedIds([]) == {} && forall id :: !Reported([], id)
  {
  }

  lemma ReportsOtherwise(judge: Judge, s: State, h: History, step: Step)
    requires Enabled(judge, s, step) && NumbersOk(s) && ReportsTracked(s, h.unreported)
    requires Ordinary(step) && !step.Diagnose? && !step.ReportRedaction? && !step.AppendEvent?
    ensures ReportsTracked(Apply(judge, s, step), Recorded(judge, h, s, step).unreported)
  {
    hide Reported, RedactedIds, Tick, Good, Increasing, MaximumSequence, EventIds, DiagnosticIds;
  }

  lemma ReportsTrackedStep(judge: Judge, s: State, h: History, step: Step)
    requires Enabled(judge, s, step) && NumbersOk(s) && KnownDrawn(s) && ReportsTracked(s, h.unreported)
    ensures ReportsTracked(Apply(judge, s, step), Recorded(judge, h, s, step).unreported)
  {
    hide Enabled, Apply, NumbersOk, KnownDrawn, ReportsTracked, Recorded;
    if step.Diagnose? || step.ReportRedaction? {
      ReportsDiagnosed(judge, s, h, step);
    } else if step.AppendEvent? {
      ReportsAppended(judge, s, h, step);
    } else if step.Reset? {
      ReportsReset(judge, s, h, step);
    } else if step.ResetFails? {
      ReportsFailedReset(judge, s, h, step);
    } else if step.Land? {
      ReportsLanding(judge, s, h, step);
    } else {
      ReportsOtherwise(judge, s, h, step);
    }
  }

  // --- whole runs ---------------------------------------------------------------------------------------------

  /** What the history knows of a state. */
  ghost predicate Tracks(s: State, h: History)
  {
    NumbersOk(s) && KnownDrawn(s) && NumbersTracked(s, h) && ReportsTracked(s, h.unreported)
  }

  lemma TracksStep(judge: Judge, s: State, h: History, step: Step)
    requires Enabled(judge, s, step) && Tracks(s, h)
    ensures Tracks(Apply(judge, s, step), Recorded(judge, h, s, step))
  {
    hide Enabled, Apply, NumbersOk, KnownDrawn, NumbersTracked, ReportsTracked, Recorded;
    NumbersStep(judge, s, step);
    KnownDrawnStep(judge, s, step);
    NumbersTrackedStep(judge, s, h, step);
    ReportsTrackedStep(judge, s, h, step);
  }

  lemma {:induction false} Tracked(judge: Judge, s: State, h: History, steps: seq<Step>)
    requires Runs(judge, s, steps) && Tracks(s, h)
    ensures Tracks(After(judge, s, steps), HistoryOf(judge, s, h, steps))
    decreases |steps|
  {
    hide Enabled, Apply, Recorded, Tracks;
    if steps != [] {
      TracksStep(judge, s, h, steps[0]);
      Tracked(judge, Apply(judge, s, steps[0]), Recorded(judge, h, s, steps[0]), steps[1..]);
    }
  }

  lemma {:induction false} TrackedFromTheStart(judge: Judge, steps: seq<Step>)
    requires Runs(judge, INITIAL, steps)
    ensures Tracks(After(judge, INITIAL, steps), HistoryOf(judge, INITIAL, NOTHING, steps))
  {
    NothingReported();
    hide Runs, After, HistoryOf, RedactedIds, Reported;
    Tracked(judge, INITIAL, NOTHING, steps);
  }

  /** The stored numbers are exactly 1, 2, ..., n since the log was last cleared if and only if no event was
      appended while the daemon held a number that is not in the log: one whose append failed, or one from
      before a clearing that left the counter alone, because its reset failed. */
  lemma {:induction false} SequencesAreDenseIff(judge: Judge, steps: seq<Step>)
    requires Runs(judge, INITIAL, steps)
    ensures Dense(After(judge, INITIAL, steps).store.events) <==> !HistoryOf(judge, INITIAL, NOTHING, steps).gap
  {
    TrackedFromTheStart(judge, steps);
    hide Runs, After, HistoryOf, ReportsTracked, KnownDrawn, Dense, Increasing;
    DenseIff(After(judge, INITIAL, steps).store.events);
  }

  lemma {:induction false} NoFailuresNoWaste(judge: Judge, s: State, h: History, steps: seq<Step>)
    requires Runs(judge, s, steps) && forall k | 0 <= k < |steps| :: steps[k] != Fail && !steps[k].ResetFails?
    requires !h.wasted && !h.gap && s.pending == multiset{}
    ensures !HistoryOf(judge, s, h, steps).gap
    decreases |steps|
  {
    if steps != [] {
      NothingPending(judge, s, steps[0]);
      hide Enabled, Apply;
      NoFailuresNoWaste(judge, Apply(judge, s, steps[0]), Recorded(judge, h, s, steps[0]), steps[1..]);
    }
  }

  lemma NothingPending(judge: Judge, s: State, step: Step)
    requires Enabled(judge, s, step) && s.pending == multiset{} && !step.ResetFails?
    ensures Apply(judge, s, step).pending == multiset{} && !step.Land?
  {
    hide Tick, Good, Diagnosed;
  }

  /** Crashes alone never open a gap. */
  lemma {:induction false} NoGapWithoutFailures(judge: Judge, steps: seq<Step>)
    requires Runs(judge, INITIAL, steps)
    requires forall k | 0 <= k < |steps| :: steps[k] != Fail && !steps[k].ResetFails?
    ensures Dense(After(judge, INITIAL, steps).store.events)
  {
    NoFailuresNoWaste(judge, INITIAL, NOTHING, steps);
    SequencesAreDenseIff(judge, steps);
  }

  /** Between operations, every redacted event has its SECRET_REDACTED report if and only if the daemon never
      stopped between storing one and reporting it, nor were the diagnostics cleared without the log, since the log
      was cleared or the event was stored once more: replay does not make up for a lost report. */
  lemma {:induction false} RedactionsReportedIff(judge: Judge, steps: seq<Step>)
    requires Runs(judge, INITIAL, steps) && After(judge, INITIAL, steps).work.Idle?
    ensures var s := After(judge, INITIAL, steps);
            (forall e | e in s.store.events && e.redacted :: Reported(s.store.diagnostics, e.id))
            <==> HistoryOf(judge, INITIAL, NOTHING, steps).unreported == {}
  {
    TrackedFromTheStart(judge, steps);
    hide Runs, After, HistoryOf, NumbersTracked, Reported, NumbersOk, KnownDrawn;
    var s, h := After(judge, INITIAL, steps), HistoryOf(judge, INITIAL, NOTHING, steps);
    forall e | e in s.store.events && e.redacted ensures e.id in RedactedIds(s.store.events) {}
  }
}
