/** What every step of the ingestion machine keeps: exact caches, increasing numbers, unique identifiers. */
module IngestionInvariants {
  import opened Common
  import opened DirectAppend
  import opened Ingestion
  import opened IngestionMachine

  // --- the invariant -------------------------------------------------------------------------------------

  /** A populated identifier cache equals the set of identifiers in its file. */
  ghost predicate CachesExact(s: Store)
  {
    && (s.eventIds.Some? ==> s.eventIds.value == EventIds(s.events))
    && (s.diagnosticIds.Some? ==> s.diagnosticIds.value == DiagnosticIds(s.diagnostics))
  }

  ghost predicate Increasing(events: seq<Stored>)
  {
    && (forall i | 0 <= i < |events| :: 1 <= events[i].sequence)
    && (forall i, j | 0 <= i < j < |events| :: events[i].sequence < events[j].sequence)
  }

  /** Sequence numbers increase, and a number already drawn is above them all. A record under way is at the head
      of the list, and one with a number is not among the known identifiers. This survives even failed resets. */
  ghost predicate NumbersOk(s: State)
  {
    && Increasing(s.store.events)
    && s.store.Current() >= MaximumSequence(s.store.events)
    && (s.work.Busy? && s.work.stage != Start ==> s.work.todo != [])
    && (s.work.Busy? && s.work.stage.HasNumber? ==>
          && s.store.counter == Some(s.work.stage.sequence) && s.work.stage.sequence > MaximumSequence(s.store.events)
          && s.store.eventIds.Some? && s.work.todo[0].id !in s.store.eventIds.value)
  }

  /** Every step but those of a reset. */
  predicate Ordinary(step: Step) { !step.Reset? && !step.ResetFails? && !step.Land? }

  ghost predicate OnlyOrdinary(steps: seq<Step>) { forall k | 0 <= k < |steps| :: Ordinary(steps[k]) }

  /** A reset empties the caches before it throws, and a restart ends what it left running. */
  predicate PendingOk(s: State)
  {
    s.pending != multiset{} ==> s.store.eventIds.Some? && s.store.diagnosticIds.Some?
  }

  ghost predicate Reported(diagnostics: seq<Diagnostic>, id: Id)
  {
    exists d :: d in diagnostics && d.reason == SecretRedacted(id)
  }

  /** Where the record at the head of the list stands. */
  ghost predicate HeadOk(judge: Judge, s: State)
  {
    s.work.Busy? && s.work.stage != Start ==>
      && s.work.todo != [] && Good(judge, s.work.todo[0])
      && (s.work.stage.HasNumber? ==> s.work.todo[0].id !in EventIds(s.store.events))
      && (s.work.stage.HasEvent? ==>
            s.work.todo[0].id in EventIds(s.store.events) && !Reported(s.store.diagnostics, s.work.todo[0].id))
  }

  /** Identifiers are unique in both files, and an event's redaction is reported at most once. */
  ghost predicate Unique(events: seq<Stored>, diagnostics: seq<Diagnostic>)
  {
    && (forall i, j | 0 <= i < j < |events| :: events[i].id != events[j].id)
    && (forall i, j | 0 <= i < j < |diagnostics| :: diagnostics[i].id != diagnostics[j].id)
    && (forall i, j | 0 <= i < j < |diagnostics| ::
          diagnostics[i].reason.SecretRedacted? ==> diagnostics[i].reason != diagnostics[j].reason)
    && (forall d | d in diagnostics :: d.reason.SecretRedacted? ==> d.reason.event in EventIds(events))
  }

  predicate Drawn(id: Id, random: nat) { id.Random? ==> id.n < random }

  ghost predicate RandomsDrawn(s: State)
  {
    && (forall d | d in s.store.diagnostics :: Drawn(d.id, s.random))
    && (forall e | e in s.store.events :: Drawn(e.id, s.random))
    && (s.work.Busy? ==> forall i | i in s.work.todo :: Drawn(i.id, s.random))
  }

  // --- effects on the store ------------------------------------------------------------------------------

  lemma DiagnosedOne(s: Store, d: Diagnostic)
    requires CachesExact(s)
    ensures var (after, threw) := Diagnosed(s, [d], true);
            && !threw && CachesExact(after)
            && after.events == s.events && after.eventIds == s.eventIds && after.counter == s.counter
            && after.diagnostics == s.diagnostics + (if d.id in DiagnosticIds(s.diagnostics) then [] else [d])
  {
    assert Unseen(s.KnownDiagnostics(), [d]) == if d.id in s.KnownDiagnostics() then [] else [d];
    assert s.diagnostics + [] == s.diagnostics;
    assert DiagnosticIds(s.diagnostics + [d]) == DiagnosticIds(s.diagnostics) + DiagnosticIds([d]);
  }

  lemma AppendedOne(s: Store, e: Stored)
    requires CachesExact(s)
    ensures CachesExact(Appended(s, e)) && EventIds(s.events + [e]) == EventIds(s.events) + {e.id}
  {
  }

  lemma {:induction false} HigherNumber(events: seq<Stored>, e: Stored)
    requires Increasing(events) && e.sequence > MaximumSequence(events)
    ensures Increasing(events + [e]) && MaximumSequence(events + [e]) == e.sequence
  {
  }

  // --- every step keeps the invariant --------------------------------------------------------------------

  lemma CachesStep(judge: Judge, s: State, step: Step)
    requires Enabled(judge, s, step) && Ordinary(step) && CachesExact(s.store)
    ensures CachesExact(Apply(judge, s, step).store)
  {
    hide Tick, Good, EventIds, DiagnosticIds, Diagnosed;
    match step
    case Diagnose =>
      DiagnosedOne(s.store, Diagnostic(s.work.todo[0].id, ReasonFor(judge, s.work.todo[0])));
    case ReportRedaction(n) =>
      DiagnosedOne(s.store, Diagnostic(Random(n), SecretRedacted(s.work.todo[0].id)));
    case AppendEvent =>
      var e := Apply(judge, s, step).store.events[|s.store.events|];
      AppendedOne(s.store, e);
    case _ =>
  }

  /** Diagnostics leave the events alone. */
  lemma DiagnosedKeepsEvents(s: Store, diagnostics: seq<Diagnostic>, writable: bool)
    ensures var after := Diagnosed(s, diagnostics, writable).0;
            after.events == s.events && after.eventIds == s.eventIds && after.counter == s.counter
  {
  }

  lemma NumbersDiagnosed(judge: Judge, s: State, step: Step)
    requires Enabled(judge, s, step) && NumbersOk(s)
    requires step.Diagnose? || step.ReportRedaction?
    ensures NumbersOk(Apply(judge, s, step))
  {
    hide Increasing, MaximumSequence, Tick, Diagnosed, Good;
    var d := if step.Diagnose? then Diagnostic(s.work.todo[0].id, ReasonFor(judge, s.work.todo[0]))
             else Diagnostic(Random(step.n), SecretRedacted(s.work.todo[0].id));
    DiagnosedKeepsEvents(s.store, [d], true);
  }

  lemma NumbersAppended(judge: Judge, s: State, step: Step)
    requires Enabled(judge, s, step) && NumbersOk(s)
    requires step.AppendEvent?
    ensures NumbersOk(Apply(judge, s, step))
  {
    hide Increasing, MaximumSequence, Tick, Diagnosed, Good;
    HigherNumber(s.store.events, Apply(judge, s, step).store.events[|s.store.events|]);
  }

  lemma NumbersCleared(judge: Judge, s: State, step: Step)
    requires Enabled(judge, s, step) && NumbersOk(s)
    requires !Ordinary(step)
    ensures NumbersOk(Apply(judge, s, step))
  {
    hide Increasing, MaximumSequence, Tick, Diagnosed, Good;
    NothingStored();
  }

  lemma NumbersOtherwise(judge: Judge, s: State, step: Step)
    requires Enabled(judge, s, step) && NumbersOk(s)
    requires !step.Diagnose? && !step.ReportRedaction? && !step.AppendEvent? && Ordinary(step)
    ensures NumbersOk(Apply(judge, s, step))
  {
    hide Increasing, MaximumSequence, Tick, Diagnosed, Good;
  }

  lemma NumbersStep(judge: Judge, s: State, step: Step)
    requires Enabled(judge, s, step) && NumbersOk(s)
    ensures NumbersOk(Apply(judge, s, step))
  {
    hide Enabled, Apply, NumbersOk;
    if step.Diagnose? || step.ReportRedaction? {
      NumbersDiagnosed(judge, s, step);
    } else if step.AppendEvent? {
      NumbersAppended(judge, s, step);
    } else if !Ordinary(step) {
      NumbersCleared(judge, s, step);
    } else {
      NumbersOtherwise(judge, s, step);
    }
  }

  lemma PendingStep(judge: Judge, s: State, step: Step)
    requires Enabled(judge, s, step) && PendingOk(s)
    ensures PendingOk(Apply(judge, s, step))
    ensures Ordinary(step) ==> Apply(judge, s, step).damaged == s.damaged
  {
    if Ordinary(step) {
      PendingOrdinary(judge, s, step);
    } else {
      PendingReset(judge, s, step);
    }
    hide *;
  }

  lemma PendingOrdinary(judge: Judge, s: State, step: Step)
    requires Enabled(judge, s, step) && PendingOk(s) && Ordinary(step)
    ensures PendingOk(Apply(judge, s, step)) && Apply(judge, s, step).damaged == s.damaged
  {
    hide Tick, Good, Unseen, EventIds, DiagnosticIds;
  }

  lemma PendingReset(judge: Judge, s: State, step: Step)
    requires Enabled(judge, s, step) && PendingOk(s) && !Ordinary(step)
    ensures PendingOk(Apply(judge, s, step))
  {
    hide Blank, Harmless, LandsHarmlessly;
  }

  lemma NothingStored()
    ensures Increasing([]) && MaximumSequence([]) == 0
  {
  }

  lemma HeadStep(judge: Judge, s: State, step: Step)
    requires Enabled(judge, s, step) && Ordinary(step) && CachesExact(s.store) && HeadOk(judge, s)
    requires Unique(s.store.events, s.store.diagnostics)
    ensures HeadOk(judge, Apply(judge, s, step))
  {
    match step
    case AppendEvent =>
      var e := Apply(judge, s, step).store.events[|s.store.events|];
      AppendedOne(s.store, e);
    case _ =>
  }

  lemma UniqueEvent(events: seq<Stored>, diagnostics: seq<Diagnostic>, e: Stored)
    requires Unique(events, diagnostics) && e.id !in EventIds(events)
    ensures Unique(events + [e], diagnostics)
  {
  }

  lemma UniqueDiagnostic(events: seq<Stored>, diagnostics: seq<Diagnostic>, d: Diagnostic)
    requires Unique(events, diagnostics) && d.id !in DiagnosticIds(diagnostics)
    requires d.reason.SecretRedacted? ==> d.reason.event in EventIds(events) && !Reported(diagnostics, d.reason.event)
    ensures Unique(events, diagnostics + [d])
  {
  }

  lemma UniqueStep(judge: Judge, s: State, step: Step)
    requires Enabled(judge, s, step) && Ordinary(step) && CachesExact(s.store) && HeadOk(judge, s) && RandomsDrawn(s)
    requires Unique(s.store.events, s.store.diagnostics)
    ensures var after := Apply(judge, s, step).store; Unique(after.events, after.diagnostics)
  {
    hide Unique, CachesExact, Tick, Diagnosed;
    match step
    case Diagnose =>
      var d := Diagnostic(s.work.todo[0].id, ReasonFor(judge, s.work.todo[0]));
      DiagnosedOne(s.store, d);
      if d.id !in DiagnosticIds(s.store.diagnostics) {
        UniqueDiagnostic(s.store.events, s.store.diagnostics, d);
      } else {
        assert s.store.diagnostics + [] == s.store.diagnostics;
      }
    case ReportRedaction(n) =>
      var d := Diagnostic(Random(n), SecretRedacted(s.work.todo[0].id));
      DiagnosedOne(s.store, d);
      assert d.id !in DiagnosticIds(s.store.diagnostics);
      UniqueDiagnostic(s.store.events, s.store.diagnostics, d);
    case AppendEvent =>
      UniqueEvent(s.store.events, s.store.diagnostics, Apply(judge, s, step).store.events[|s.store.events|]);
    case _ =>
  }

  lemma RandomsStep(judge: Judge, s: State, step: Step)
    requires Enabled(judge, s, step) && Ordinary(step) && CachesExact(s.store) && HeadOk(judge, s) && RandomsDrawn(s)
    ensures RandomsDrawn(Apply(judge, s, step))
  {
    hide CachesExact, Tick, Diagnosed;
    match step
    case Diagnose =>
      DiagnosedOne(s.store, Diagnostic(s.work.todo[0].id, ReasonFor(judge, s.work.todo[0])));
    case ReportRedaction(n) =>
      DiagnosedOne(s.store, Diagnostic(Random(n), SecretRedacted(s.work.todo[0].id)));
    case _ =>
  }
}
