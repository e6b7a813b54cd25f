/** The identifier caches against their files, over whole runs: exactly which identifiers a failed reset, or a
    clearing that lands after one, makes the daemon forget or remember wrongly. */
module CacheHistory {
  import opened Common
  import opened DirectAppend
  import opened Ingestion
  import opened IngestionMachine
  import opened IngestionInvariants

  /** Identifiers `missed` are in the file but no longer remembered: the cache was emptied for a clearing that failed
      or is still running. Those `left` are remembered but gone: they were stored before such a clearing landed. */
  datatype Drift = Drift(missed: set<Id>, left: set<Id>)

  const NO_DRIFT := Drift({}, {})

  /** A clearing has emptied the file: what was stored and remembered is left over. */
  function Emptied(d: Drift, stored: set<Id>): Drift { Drift({}, d.left + (stored - d.missed)) }

  function EventDrift(d: Drift, s: State, step: Step): Drift
  {
    match step
    case AppendEvent => if s.work.Busy? && s.work.todo != [] then d.(missed := d.missed - {s.work.todo[0].id}) else d
    case Restart => NO_DRIFT
    case Reset => NO_DRIFT
    case ResetFails(undone, _, _) => if Events in undone then Drift(EventIds(s.store.events), {}) else NO_DRIFT
    case Land(Events) => Emptied(d, EventIds(s.store.events))
    case _ => d
  }

  function DiagnosticDrift(d: Drift, s: State, step: Step): Drift
  {
    match step
    case Diagnose => if s.work.Busy? && s.work.todo != [] then d.(missed := d.missed - {s.work.todo[0].id}) else d
    case ReportRedaction(n) => d.(missed := d.missed - {Random(n)})
    case Restart => NO_DRIFT
    case Reset => NO_DRIFT
    case ResetFails(undone, _, _) =>
      if Diagnostics in undone then Drift(DiagnosticIds(s.store.diagnostics), {}) else NO_DRIFT
    case Land(Diagnostics) => Emptied(d, DiagnosticIds(s.store.diagnostics))
    case _ => d
  }

  /** How far the two caches have drifted from their files at the end of a run. */
  ghost function DriftOf(judge: Judge, s: State, events: Drift, diagnostics: Drift, steps: seq<Step>): (Drift, Drift)
    requires Runs(judge, s, steps)
    decreases |steps|
  {
    if steps == [] then (events, diagnostics)
    else
      DriftOf(judge, Apply(judge, s, steps[0]), EventDrift(events, s, steps[0]),
              DiagnosticDrift(diagnostics, s, steps[0]), steps[1..])
  }

  /** A cache differs from its file by exactly that; one that is not loaded yet does not. */
  predicate Drifted(known: Option<set<Id>>, stored: set<Id>, d: Drift)
  {
    match known
    case None => d == NO_DRIFT
    case Some(ids) => d.missed == stored - ids && d.left == ids - stored
  }

  lemma ExactIff(known: Option<set<Id>>, stored: set<Id>, d: Drift)
    requires Drifted(known, stored, d)
    ensures (known.Some? ==> known.value == stored) <==> d == NO_DRIFT
  {
    if known.Some? && d == NO_DRIFT {
      assert forall id :: id in stored <==> id in known.value by {
        forall id ensures id in stored <==> id in known.value {
          assert id in stored - known.value <==> id in d.missed;
          assert id in known.value - stored <==> id in d.left;
        }
      }
    }
  }

  /** One more identifier is stored and remembered. */
  lemma BothGrow(known: set<Id>, stored: set<Id>, id: Id, d: Drift)
    requires Drifted(Some(known), stored, d) && id !in known
    ensures Drifted(Some(known + {id}), stored + {id}, d.(missed := d.missed - {id}))
  {
  }

  lemma ClearedDrift(known: Option<set<Id>>, stored: set<Id>, d: Drift)
    requires Drifted(known, stored, d) && known.Some?
    ensures Drifted(known, {}, Emptied(d, stored))
  {
  }

  lemma NothingDiffers(ids: set<Id>)
    ensures Drifted(Some(ids), ids, NO_DRIFT) && Drifted(Some({}), ids, Drift(ids, {})) && Drifted(None, ids, NO_DRIFT)
  {
  }

  // --- the log -------------------------------------------------------------------------------------------------

  ghost predicate EventsDrifted(s: State, d: Drift)
  {
    Drifted(s.store.eventIds, EventIds(s.store.events), d)
  }

  lemma EventsAppended(judge: Judge, s: State, d: Drift)
    requires Enabled(judge, s, AppendEvent) && NumbersOk(s) && EventsDrifted(s, d)
    ensures EventsDrifted(Apply(judge, s, AppendEvent), EventDrift(d, s, AppendEvent))
  {
    hide Increasing, MaximumSequence, Good, Drifted;
    var after := Apply(judge, s, AppendEvent);
    var e := after.store.events[|s.store.events|];
    assert EventIds(s.store.events + [e]) == EventIds(s.store.events) + {e.id};
    BothGrow(s.store.eventIds.value, EventIds(s.store.events), e.id, d);
  }

  lemma EventsReset(judge: Judge, s: State, step: Step, d: Drift)
    requires Enabled(judge, s, step) && EventsDrifted(s, d) && (step.Reset? || step.ResetFails? || step.Restart?)
    ensures EventsDrifted(Apply(judge, s, step), EventDrift(d, s, step))
  {
    NothingDiffers(EventIds(s.store.events));
    NothingDiffers({});
    assert EventIds([]) == {};
    hide Drifted, Harmless, EventIds;
  }

  lemma EventsLanded(judge: Judge, s: State, part: Part, d: Drift)
    requires Enabled(judge, s, Land(part)) && PendingOk(s) && EventsDrifted(s, d)
    ensures EventsDrifted(Apply(judge, s, Land(part)), EventDrift(d, s, Land(part)))
  {
    if part == Events { ClearedDrift(s.store.eventIds, EventIds(s.store.events), d); }
    assert EventIds([]) == {};
    hide Drifted, Blank, LandsHarmlessly, EventIds;
  }

  lemma EventsOtherwise(judge: Judge, s: State, step: Step, d: Drift)
    requires Enabled(judge, s, step) && EventsDrifted(s, d)
    requires Ordinary(step) && !step.Restart? && !step.AppendEvent?
    ensures EventsDrifted(Apply(judge, s, step), EventDrift(d, s, step))
  {
    NothingDiffers(EventIds(s.store.events));
    if step.Diagnose? || step.ReportRedaction? {
      var x := if step.Diagnose? then Diagnostic(s.work.todo[0].id, ReasonFor(judge, s.work.todo[0]))
               else Diagnostic(Random(step.n), SecretRedacted(s.work.todo[0].id));
      DiagnosedKeepsEvents(s.store, [x], true);
    }
    hide Diagnosed, Tick, Good, EventIds, DiagnosticIds, MaximumSequence;
  }

  lemma EventsStep(judge: Judge, s: State, step: Step, d: Drift)
    requires Enabled(judge, s, step) && NumbersOk(s) && PendingOk(s) && EventsDrifted(s, d)
    ensures EventsDrifted(Apply(judge, s, step), EventDrift(d, s, step))
  {
    hide Enabled, Apply, NumbersOk, PendingOk, EventsDrifted, EventDrift;
    if step.AppendEvent? {
      EventsAppended(judge, s, d);
    } else if step.Land? {
      EventsLanded(judge, s, step.part, d);
    } else if !Ordinary(step) || step.Restart? {
      EventsReset(judge, s, step, d);
    } else {
      EventsOtherwise(judge, s, step, d);
    }
  }

  // --- the diagnostics -----------------------------------------------------------------------------------------

  ghost predicate DiagnosticsDrifted(s: State, d: Drift)
  {
    Drifted(s.store.diagnosticIds, DiagnosticIds(s.store.diagnostics), d)
  }

  lemma DiagnosedDrift(s: Store, x: Diagnostic, d: Drift)
    requires Drifted(s.diagnosticIds, DiagnosticIds(s.diagnostics), d)
    ensures var after := Diagnosed(s, [x], true).0;
            Drifted(after.diagnosticIds, DiagnosticIds(after.diagnostics), d.(missed := d.missed - {x.id}))
  {
    assert Unseen(s.KnownDiagnostics(), [x]) == if x.id in s.KnownDiagnostics() then [] else [x];
    assert DiagnosticIds(s.diagnostics + [x]) == DiagnosticIds(s.diagnostics) + {x.id};
    assert DiagnosticIds([x]) == {x.id};
    NothingDiffers(DiagnosticIds(s.diagnostics));
    hide DiagnosticIds, Unseen;
    if x.id !in s.KnownDiagnostics() { BothGrow(s.KnownDiagnostics(), DiagnosticIds(s.diagnostics), x.id, d); }
  }

  lemma DiagnosticsDiagnosed(judge: Judge, s: State, step: Step, d: Drift)
    requires Enabled(judge, s, step) && DiagnosticsDrifted(s, d) && (step.Diagnose? || step.ReportRedaction?)
    ensures DiagnosticsDrifted(Apply(judge, s, step), DiagnosticDrift(d, s, step))
  {
    hide Diagnosed, Drifted, DiagnosticIds, Good;
    var x := if step.Diagnose? then Diagnostic(s.work.todo[0].id, ReasonFor(judge, s.work.todo[0]))
             else Diagnostic(Random(step.n), SecretRedacted(s.work.todo[0].id));
    DiagnosedDrift(s.store, x, d);
  }

  lemma DiagnosticsReset(judge: Judge, s: State, step: Step, d: Drift)
    requires Enabled(judge, s, step) && DiagnosticsDrifted(s, d) && (step.Reset? || step.ResetFails? || step.Restart?)
    ensures DiagnosticsDrifted(Apply(judge, s, step), DiagnosticDrift(d, s, step))
  {
    NothingDiffers(DiagnosticIds(s.store.diagnostics));
    NothingDiffers({});
    assert DiagnosticIds([]) == {};
    hide Drifted, Harmless, DiagnosticIds;
  }

  lemma DiagnosticsLanded(judge: Judge, s: State, part: Part, d: Drift)
    requires Enabled(judge, s, Land(part)) && PendingOk(s) && DiagnosticsDrifted(s, d)
    ensures DiagnosticsDrifted(Apply(judge, s, Land(part)), DiagnosticDrift(d, s, Land(part)))
  {
    if part == Diagnostics { ClearedDrift(s.store.diagnosticIds, DiagnosticIds(s.store.diagnostics), d); }
    assert DiagnosticIds([]) == {};
    hide Drifted, Blank, LandsHarmlessly, DiagnosticIds;
  }

  lemma DiagnosticsOtherwise(judge: Judge, s: State, step: Step, d: Drift)
    requires Enabled(judge, s, step) && DiagnosticsDrifted(s, d)
    requires Ordinary(step) && !step.Restart? && !step.Diagnose? && !step.ReportRedaction?
    ensures DiagnosticsDrifted(Apply(judge, s, step), DiagnosticDrift(d, s, step))
  {
    NothingDiffers(DiagnosticIds(s.store.diagnostics));
    hide Tick, Good, EventIds, DiagnosticIds, MaximumSequence;
  }

  lemma DiagnosticsStep(judge: Judge, s: State, step: Step, d: Drift)
    requires Enabled(judge, s, step) && PendingOk(s) && DiagnosticsDrifted(s, d)
    ensures DiagnosticsDrifted(Apply(judge, s, step), DiagnosticDrift(d, s, step))
  {
    hide Enabled, Apply, PendingOk, DiagnosticsDrifted, DiagnosticDrift;
    if step.Diagnose? || step.ReportRedaction? {
      DiagnosticsDiagnosed(judge, s, step, d);
    } else if step.Land? {
      DiagnosticsLanded(judge, s, step.part, d);
    } else if !Ordinary(step) || step.Restart? {
      DiagnosticsReset(judge, s, step, d);
    } else {
      DiagnosticsOtherwise(judge, s, step, d);
    }
  }

  // --- whole runs ----------------------------------------------------------------------------------------------

  lemma {:induction false} DriftTracked(judge: Judge, s: State, events: Drift, diagnostics: Drift, steps: seq<Step>)
    requires Runs(judge, s, steps) && NumbersOk(s) && PendingOk(s)
    requires EventsDrifted(s, events) && DiagnosticsDrifted(s, diagnostics)
    ensures var after := After(judge, s, steps); var (e, d) := DriftOf(judge, s, events, diagnostics, steps);
            EventsDrifted(after, e) && DiagnosticsDrifted(after, d)
    decreases |steps|
  {
    hide Enabled, Apply, NumbersOk, PendingOk, EventsDrifted, DiagnosticsDrifted, EventDrift, DiagnosticDrift;
    if steps != [] {
      NumbersStep(judge, s, steps[0]);
      PendingStep(judge, s, steps[0]);
      EventsStep(judge, s, steps[0], events);
      DiagnosticsStep(judge, s, steps[0], diagnostics);
      DriftTracked(judge, Apply(judge, s, steps[0]), EventDrift(events, s, steps[0]),
                   DiagnosticDrift(diagnostics, s, steps[0]), steps[1..]);
    }
  }

  /** In every run each populated identifier cache equals the identifiers in its file if and only if nothing is
      missed that a clearing left in the file, and nothing is left over that one removed from it. */
  lemma {:induction false} CachesAreExactIff(judge: Judge, steps: seq<Step>)
    requires Runs(judge, INITIAL, steps)
    ensures var store := After(judge, INITIAL, steps).store;
            var (events, diagnostics) := DriftOf(judge, INITIAL, NO_DRIFT, NO_DRIFT, steps);
            && ((store.eventIds.Some? ==> store.eventIds.value == EventIds(store.events)) <==> events == NO_DRIFT)
            && ((store.diagnosticIds.Some? ==> store.diagnosticIds.value == DiagnosticIds(store.diagnostics))
                <==> diagnostics == NO_DRIFT)
  {
    DriftTracked(judge, INITIAL, NO_DRIFT, NO_DRIFT, steps);
    hide Runs, After, DriftOf, Drifted, EventIds, DiagnosticIds;
    var store := After(judge, INITIAL, steps).store;
    var (events, diagnostics) := DriftOf(judge, INITIAL, NO_DRIFT, NO_DRIFT, steps);
    ExactIff(store.eventIds, EventIds(store.events), events);
    ExactIff(store.diagnosticIds, DiagnosticIds(store.diagnostics), diagnostics);
  }
}
