/** Which failed resets, and which clearings that land after one, break exactly-once ingestion: those that set
    `damaged`, and no others. */
module FailedResets {
  import opened Common
  import opened DirectAppend
  import opened Ingestion
  import opened IngestionMachine
  import opened IngestionInvariants
  import opened DirectMarks
  import opened ExactlyOnce
  import opened DirectIngestion

  /** The identifier caches are exact, and when nothing is left behind the cursor every line has its trace. */
  ghost predicate Promise(judge: Judge, s: State)
  {
    CachesExact(s.store) && (Drained(s) ==> Settled(judge, s))
  }

  ghost predicate Settled(judge: Judge, s: State)
  {
    forall events: bool :: Marks(s.store, events) == Expected(judge, Records(s.incoming, |s.incoming|), events)
  }

  /** The promise is kept from here on, whatever happens short of another reset or late clearing. */
  ghost predicate Lasting(judge: Judge, s: State)
  {
    forall steps | Runs(judge, s, steps) && OnlyOrdinary(steps) :: Promise(judge, After(judge, s, steps))
  }

  // --- a sound state keeps the promise ---------------------------------------------------------------------

  lemma {:induction false} SoundRun(judge: Judge, s: State, steps: seq<Step>)
    requires Sound(judge, s) && Runs(judge, s, steps) && OnlyOrdinary(steps)
    ensures Sound(judge, After(judge, s, steps))
    decreases |steps|
  {
    hide Sound, Enabled, Apply;
    if steps != [] {
      SoundStep(judge, s, steps[0]);
      SoundRun(judge, Apply(judge, s, steps[0]), steps[1..]);
    }
  }

  lemma SoundKeeps(judge: Judge, s: State)
    requires Sound(judge, s)
    ensures Promise(judge, s)
  {
    hide CachesExact, HeadOk, Unique, RandomsDrawn, Placed, Drained, Marks, Expected, Records;
    if Drained(s) {
      forall events: bool ensures Marks(s.store, events) == Expected(judge, Records(s.incoming, |s.incoming|), events) {
        DrainedMarks(judge, s, events);
      }
    }
  }

  lemma SoundLasts(judge: Judge, s: State)
    requires Sound(judge, s)
    ensures Lasting(judge, s)
  {
    hide Sound, Promise, Runs, After;
    forall steps | Runs(judge, s, steps) && OnlyOrdinary(steps) ensures Promise(judge, After(judge, s, steps)) {
      SoundRun(judge, s, steps);
      SoundKeeps(judge, After(judge, s, steps));
    }
  }

  // --- a broken one can be made to show it -----------------------------------------------------------------

  /** A run that ends with the promise broken. */
  ghost predicate Breaks(judge: Judge, s: State, steps: seq<Step>)
  {
    Runs(judge, s, steps) && OnlyOrdinary(steps) && !Promise(judge, After(judge, s, steps))
  }

  lemma {:induction false} BreaksLater(judge: Judge, s: State, first: seq<Step>, second: seq<Step>)
    requires Runs(judge, s, first) && OnlyOrdinary(first) && Breaks(judge, After(judge, s, first), second)
    ensures Breaks(judge, s, first + second)
  {
    hide Runs, After, Promise;
    RunsAppend(judge, s, first, second);
  }

  lemma {:induction false} BreaksAtOnce(judge: Judge, s: State)
    requires !Promise(judge, s)
    ensures Breaks(judge, s, [])
  {
    hide Promise;
  }

  /** A trace is left although there are no lines. */
  lemma TraceWithoutLine(judge: Judge, s: State)
    requires s.work.Idle? && s.incoming == [] && !NoneDirect(s.store)
    ensures !Promise(judge, s)
  {
    hide Marks, Expected, NoneDirect, CachesExact, RecordsFrom, ItemsOf;
    NoMarks(s.store);
    NoRecords([]);
    NothingExpected(judge, []);
    assert s.incoming[..0] == [];
  }

  /** A line is left without a trace. */
  lemma LineWithoutTrace(judge: Judge, s: State)
    requires Drained(s) && NoneDirect(s.store) && RecordsFrom(s.incoming, 0) != []
    ensures !Promise(judge, s)
  {
    hide Marks, Expected, NoneDirect, CachesExact, RecordsFrom, Drained;
    NoMarks(s.store);
    var all := Records(s.incoming, |s.incoming|);
    assert s.incoming[..|s.incoming|] == s.incoming;
    SameEmptiness(RecordsFrom(s.incoming, 0));
    NothingExpected(judge, all);
    assert Settled(judge, s) ==>
      Marks(s.store, true) == Expected(judge, all, true) && Marks(s.store, false) == Expected(judge, all, false);
  }

  /** A line long enough to reach behind the cursor is never seen: the observer starts at the LF that ends it. */
  lemma SkippedLine(judge: Judge, s: State) returns (steps: seq<Step>)
    requires s.work.Idle? && s.incoming == [] && NoneDirect(s.store)
    requires s.cursor.Offset? && s.cursor.offset > 0
    ensures Breaks(judge, s, steps)
  {
    hide Tick, Promise, NoneDirect, Runs, After, RecordsFrom, Good, Diagnosed, Harmless, LandsHarmlessly, Blank;
    var o: nat := s.cursor.offset;
    var line: seq<byte> := seq(o, _ => 65);
    var file := line + [LF];
    var appended := Apply(judge, s, Append(file));
    assert appended.incoming == file;
    LineBeforeCursor(file, o);
    OneStep(judge, s, Append(file));
    var begun := Apply(judge, appended, BeginTick([], o + 1));
    TwoSteps(judge, appended, BeginTick([], o + 1), Finish);
    RunsAppend(judge, s, [Append(file)], [BeginTick([], o + 1), Finish]);
    steps := [Append(file)] + [BeginTick([], o + 1), Finish];
    LineWithoutTrace(judge, After(judge, s, steps));
  }

  lemma {:induction false} LineBeforeCursor(file: seq<byte>, o: nat)
    requires |file| == o + 1 && file[o] == LF && o > 0 && forall i | 0 <= i < o :: file[i] != LF
    ensures Tick(file, o, [], Some(o + 1)) && !HasLf(file, o + 1, |file|) && RecordsFrom(file, 0) != []
  {
    FirstRecord(file, 0, o);
    FirstRecord(file, o, o);
    hide RecordsFrom;
    NothingDescribed();
    assert RecordsFrom(file, o) == [] + RecordsFrom(file, o + 1);
  }

  /** A line before the cursor stays without a trace. */
  lemma MissedLine(judge: Judge, s: State) returns (steps: seq<Step>)
    requires s.work.Idle? && NoneDirect(s.store) && s.cursor.Offset? && 0 <= s.cursor.offset <= |s.incoming|
    requires Boundary(s.incoming, s.cursor.offset) && RecordsFrom(s.incoming[..s.cursor.offset], 0) != []
    ensures Breaks(judge, s, steps)
  {
    hide Runs, After, RecordsFrom, Promise;
    var o: nat := s.cursor.offset;
    steps := CanDrain(judge, s);
    var after := After(judge, s, steps);
    assert AllFrom(s.store, o);
    EarlierLineMissing(judge, after, o);
  }

  lemma EarlierLineMissing(judge: Judge, s: State, o: nat)
    requires Drained(s) && AllFrom(s.store, o) && o <= |s.incoming| && Boundary(s.incoming, o)
    requires RecordsFrom(s.incoming[..o], 0) != []
    ensures !Promise(judge, s)
  {
    hide RecordsFrom, Marks, Expected, Drained, CachesExact, AllFrom;
    var r := RecordsFrom(s.incoming[..o], 0)[0];
    var item, all := ItemOf(r), Records(s.incoming, |s.incoming|);
    RecordsPrefix(s.incoming, o);
    assert item == Records(s.incoming, o)[0] == all[0];
    EarlierStart(s.incoming, o, r);
    var m := MarkOf(judge, item);
    ExpectedMember(judge, all, m.EventMark?, m);
    if Settled(judge, s) {
      assert m in Marks(s.store, m.EventMark?);
      MarkStart(s.store, o, m);
    }
  }

  lemma EarlierStart(file: seq<byte>, o: nat, r: Rec)
    requires o <= |file| && r in RecordsFrom(file[..o], 0)
    ensures r.start < o
  {
    RecordsAreTheLines(file[..o], 0, r);
    hide RecordsFrom;
  }

  lemma MarkStart(store: Store, o: nat, m: Mark)
    requires AllFrom(store, o) && m in Marks(store, m.EventMark?) && m.id.Direct?
    ensures m.id.start >= o
  {
    hide EventMarks, DiagnosticMarks;
    if m.EventMark? {
      MarkedEvent(store.events, m);
    } else {
      MarkedDiagnostic(store.diagnostics, m);
    }
  }

  // --- resets ----------------------------------------------------------------------------------------------

  /** Something is stored that the emptied caches do not know. */
  lemma Forgotten(judge: Judge, s: State)
    requires s.store.eventIds == Some({}) && s.store.diagnosticIds == Some({})
    requires s.store.events != [] || s.store.diagnostics != []
    ensures !Promise(judge, s)
  {
    hide Drained, Settled;
    if CachesExact(s.store) { NothingKnown(s.store); }
  }

  /** Where the cursor of a sound state is when it is not at the start of the old file or of a new one. */
  lemma CursorBehind(judge: Judge, s: State)
    requires CursorPlaced(judge, s.incoming, s.cursor, s.store)
    ensures !CursorAtStart([], s.cursor) ==> s.cursor.Offset? && s.cursor.offset > 0
    ensures !CursorAtStart(s.incoming, s.cursor) ==>
      && s.cursor.Offset? && 0 <= s.cursor.offset <= |s.incoming| && Boundary(s.incoming, s.cursor.offset)
      && RecordsFrom(s.incoming[..s.cursor.offset], 0) != []
  {
    hide Covered;
  }

  lemma StartOfFile(file: seq<byte>)
    ensures CursorAtStart(file, Offset(0))
  {
  }

  lemma HarmfulReset(judge: Judge, s: State, step: Step) returns (steps: seq<Step>)
    requires Enabled(judge, s, step) && step.ResetFails? && Sound(judge, s) && !Harmless(s, step.undone)
    ensures Breaks(judge, Apply(judge, s, step), steps)
  {
    hide RecordsFrom, Runs, After, Boundary, CachesExact, Covered, WindowPlaced, Unique, RandomsDrawn, Breaks, Promise;
    var after := Apply(judge, s, step);
    NoBytes();
    StartOfFile(s.incoming);
    CursorBehind(judge, s);
    if after.store.events != [] || after.store.diagnostics != [] {
      Forgotten(judge, after);
      BreaksAtOnce(judge, after);
      steps := [];
    } else if Incoming in step.undone {
      steps := MissedLine(judge, after);
    } else {
      steps := SkippedLine(judge, after);
    }
  }

  // --- clearings that land -----------------------------------------------------------------------------------

  /** A file is emptied whose identifiers are remembered. */
  lemma LogLands(judge: Judge, s: State, part: Part)
    requires Enabled(judge, s, Land(part)) && Sound(judge, s) && PendingOk(s)
    requires (part == Events || part == Diagnostics) && !LandsHarmlessly(s, part)
    ensures Breaks(judge, Apply(judge, s, Land(part)), [])
  {
    assert s.store.events != [] ==> s.store.events[0].id in EventIds(s.store.events);
    assert s.store.diagnostics != [] ==> s.store.diagnostics[0].id in DiagnosticIds(s.store.diagnostics);
    assert !CachesExact(Apply(judge, s, Land(part)).store);
    hide CachesExact, Sound, Settled, Drained, Apply, Enabled, Breaks;
    BreaksAtOnce(judge, Apply(judge, s, Land(part)));
  }

  /** An event or a diagnostic of a direct record is put behind what is stored. */
  lemma DirectEventStored(s: Store, e: Stored)
    requires e.id.Direct? && e in s.events
    ensures !NoneDirect(s)
  {
  }

  lemma DirectDiagnosticStored(s: Store, d: Diagnostic)
    requires d.id.Direct? && d in s.diagnostics
    ensures !NoneDirect(s)
  {
  }

  lemma HeadDiagnosed(judge: Judge, s: State)
    requires CachesExact(s.store) && NoneDirect(s.store) && AtStart(s.work) && s.work.todo[0].id.Direct?
    requires !Good(judge, s.work.todo[0])
    ensures var after := Apply(judge, s, Diagnose);
            after.work.Busy? && after.incoming == s.incoming && !NoneDirect(after.store)
  {
    hide CachesExact, Diagnosed, NoneDirect, Good;
    var d := Diagnostic(s.work.todo[0].id, ReasonFor(judge, s.work.todo[0]));
    NotKnown(s.store, d.id);
    DiagnosedOne(s.store, d);
    DirectDiagnosticStored(Apply(judge, s, Diagnose).store, d);
  }

  lemma HeadAppended(judge: Judge, s: State)
    requires s.work.Busy? && s.work.todo != [] && s.work.todo[0].id.Direct? && s.work.stage.HasNumber?
    ensures var after := Apply(judge, s, AppendEvent);
            after.work.Busy? && after.incoming == s.incoming && !NoneDirect(after.store)
  {
    hide NoneDirect;
    var after := Apply(judge, s, AppendEvent);
    DirectEventStored(after.store, after.store.events[|s.store.events|]);
  }

  lemma HeadNumbered(judge: Judge, s: State)
    requires CachesExact(s.store) && NoneDirect(s.store) && AtStart(s.work) && s.work.todo[0].id.Direct?
    requires Good(judge, s.work.todo[0])
    ensures Enabled(judge, s, TakeNumber)
    ensures Apply(judge, s, TakeNumber).work == s.work.(stage := HasNumber(s.store.Current() + 1))
    ensures Apply(judge, s, TakeNumber).incoming == s.incoming
  {
    hide Good;
    NotKnown(s.store, s.work.todo[0].id);
  }

  lemma HeadStored(judge: Judge, s: State) returns (steps: seq<Step>)
    requires CachesExact(s.store) && HeadOk(judge, s) && NoneDirect(s.store)
    requires s.work.Busy? && s.work.todo != [] && s.work.todo[0].id.Direct?
    ensures Runs(judge, s, steps) && OnlyOrdinary(steps)
    ensures var after := After(judge, s, steps);
            after.work.Busy? && after.incoming == s.incoming && !NoneDirect(after.store)
  {
    NotKnown(s.store, s.work.todo[0].id);
    hide Runs, After, Apply, CachesExact, NoneDirect, EventIds, Reported;
    if s.work.stage == Start && Good(judge, s.work.todo[0]) {
      HeadNumbered(judge, s);
      steps := [TakeNumber, AppendEvent];
      TwoSteps(judge, s, TakeNumber, AppendEvent);
      HeadAppended(judge, Apply(judge, s, TakeNumber));
    } else if s.work.stage == Start {
      steps := [Diagnose];
      OneStep(judge, s, Diagnose);
      HeadDiagnosed(judge, s);
    } else {
      steps := [AppendEvent];
      OneStep(judge, s, AppendEvent);
      HeadAppended(judge, s);
    }
  }

  /** The record at the head of the window leaves its trace after all. */
  lemma HeadLeavesTrace(judge: Judge, s: State) returns (steps: seq<Step>)
    requires CachesExact(s.store) && HeadOk(judge, s) && NoneDirect(s.store) && s.incoming == []
    requires s.work.Busy? && s.work.todo != [] && s.work.todo[0].id.Direct?
    ensures Breaks(judge, s, steps)
  {
    hide Runs, After, Promise, NoneDirect, CachesExact, HeadOk, Breaks;
    var first := HeadStored(judge, s);
    var stored := After(judge, s, first);
    var second := Stopped(judge, stored);
    TraceWithoutLine(judge, After(judge, stored, second));
    BreaksAtOnce(judge, After(judge, stored, second));
    BreaksLater(judge, stored, second, []);
    BreaksLater(judge, s, first, second + []);
    steps := first + (second + []);
  }

  lemma NotKnown(s: Store, id: Id)
    requires NoneDirect(s) && id.Direct?
    ensures id !in EventIds(s.events) && id !in DiagnosticIds(s.diagnostics)
  {
  }

  lemma WindowIsDirect(judge: Judge, incoming: seq<byte>, store: Store, todo: seq<Item>, n: nat)
    requires WindowPlaced(judge, incoming, store, todo, n) && todo != []
    ensures todo[0].id.Direct?
  {
    hide Covered, Records;
    var front :| Records(incoming, n) == front + todo && Covered(judge, incoming, store, front);
    RecordsDirect(incoming, n);
    assert Records(incoming, n)[|front|] == todo[0];
  }

  /** The incoming file is emptied when something of it is stored or under way, or the cursor is inside. */
  lemma IncomingLands(judge: Judge, s: State, emptied: State) returns (steps: seq<Step>)
    requires Sound(judge, s) && !LandsHarmlessly(s, Incoming)
    requires emptied == s.(incoming := [], pending := emptied.pending, damaged := emptied.damaged)
    ensures Breaks(judge, emptied, steps)
  {
    hide Runs, After, Promise, CachesExact, Unique, RandomsDrawn, WindowPlaced, Covered, Breaks, HeadOk, NoneDirect;
    if NoneDirect(s.store) && (s.cursor.Offset? ==> s.cursor.offset == 0) {
      steps := WindowLands(judge, s, emptied);
    } else {
      var first := Stopped(judge, emptied);
      var idle := After(judge, emptied, first);
      if !NoneDirect(s.store) {
        TraceWithoutLine(judge, idle);
        BreaksAtOnce(judge, idle);
        BreaksLater(judge, emptied, first, []);
        steps := first + [];
      } else {
        var second := SkippedLine(judge, idle);
        BreaksLater(judge, emptied, first, second);
        steps := first + second;
      }
    }
  }

  /** Whatever is under way can fail. */
  lemma {:induction false} Stopped(judge: Judge, s: State) returns (steps: seq<Step>)
    ensures Runs(judge, s, steps) && OnlyOrdinary(steps) && After(judge, s, steps) == s.(work := Idle)
  {
    steps := if s.work.Busy? then [Fail] else [];
    if s.work.Busy? { OneStep(judge, s, Fail); }
  }

  lemma WindowLands(judge: Judge, s: State, emptied: State) returns (steps: seq<Step>)
    requires Sound(judge, s) && !LandsHarmlessly(s, Incoming)
    requires NoneDirect(s.store) && (s.cursor.Offset? ==> s.cursor.offset == 0)
    requires emptied == s.(incoming := [], pending := emptied.pending, damaged := emptied.damaged)
    ensures Breaks(judge, emptied, steps)
  {
    hide Runs, After, Promise, CachesExact, Unique, RandomsDrawn, WindowPlaced, CursorPlaced, Breaks, NoneDirect;
    hide Reported;
    if s.work.todo != [] {
      WindowIsDirect(judge, s.incoming, s.store, s.work.todo, s.work.next.value);
      steps := HeadLeavesTrace(judge, emptied);
    } else {
      OneStep(judge, emptied, Finish);
      var second := SkippedLine(judge, Apply(judge, emptied, Finish));
      BreaksLater(judge, emptied, [Finish], second);
      steps := [Finish] + second;
    }
  }

  lemma HarmfulLanding(judge: Judge, s: State, part: Part) returns (steps: seq<Step>)
    requires Enabled(judge, s, Land(part)) && Sound(judge, s) && PendingOk(s) && !LandsHarmlessly(s, part)
    ensures Breaks(judge, Apply(judge, s, Land(part)), steps)
  {
    if part == Incoming {
      steps := IncomingLands(judge, s, Apply(judge, s, Land(part)));
    } else {
      LogLands(judge, s, part);
      steps := [];
    }
    hide Breaks;
  }

  // --- the theorem -------------------------------------------------------------------------------------------

  lemma BrokenDoesNotLast(judge: Judge, s: State, steps: seq<Step>)
    requires Breaks(judge, s, steps)
    ensures !Lasting(judge, s)
  {
    hide Promise, Runs, After;
  }

  /** From an undamaged state a step sets `damaged` if and only if the promise can be broken from then on, without
      another reset or late clearing; and what resets a damaged session to an undamaged one restores it for good. */
  lemma DamageIsExact(judge: Judge, s: State, step: Step)
    requires Inv(judge, s) && Enabled(judge, s, step)
    ensures !s.damaged ==> (Lasting(judge, Apply(judge, s, step)) <==> !Apply(judge, s, step).damaged)
    ensures s.damaged && !Apply(judge, s, step).damaged ==> Lasting(judge, Apply(judge, s, step))
  {
    hide Sound, NumbersOk, PendingOk, Enabled, Apply, Lasting, Breaks;
    var after := Apply(judge, s, step);
    InvStep(judge, s, step);
    if !after.damaged {
      SoundLasts(judge, after);
    } else if !s.damaged {
      DamageFound(judge, s, step);
      var steps;
      if step.ResetFails? {
        steps := HarmfulReset(judge, s, step);
      } else {
        steps := HarmfulLanding(judge, s, step.part);
      }
      BrokenDoesNotLast(judge, after, steps);
    }
  }

  lemma DamageFound(judge: Judge, s: State, step: Step)
    requires Enabled(judge, s, step) && PendingOk(s) && !s.damaged && Apply(judge, s, step).damaged
    ensures if step.ResetFails? then !Harmless(s, step.undone) else step.Land? && !LandsHarmlessly(s, step.part)
  {
    if Ordinary(step) { PendingOrdinary(judge, s, step); }
    hide Blank, Harmless, LandsHarmlessly, Tick, Good, Diagnosed;
  }
}
