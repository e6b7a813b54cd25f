/** `DirectAppendObserver` driving `IngestionService`, and its ticks as runs of the ingestion machine. */
module DirectIngestion {
  import opened Common
  import opened DirectAppend
  import opened Lines
  import opened Ingestion
  import opened IngestionMachine
  import opened IngestionInvariants
  import opened ExactlyOnce

  class DirectAppendObserver {
    const ingestion: IngestionService
    var incoming: map<string, seq<byte>>
    var cursors: map<string, CursorFile>

    constructor (ingestion: IngestionService, incoming: map<string, seq<byte>>, cursors: map<string, CursorFile>)
      ensures this.ingestion == ingestion && this.incoming == incoming && this.cursors == cursors
    {
      this.ingestion, this.incoming, this.cursors := ingestion, incoming, cursors;
    }

    /** Hands the observed records over one by one, until one cannot be ingested. */
    method IngestObserved(
        judge: Judge, sessionId: string, found: bool, observed: seq<Observation>, random: nat, disk: nat -> Disk)
      returns (done: bool)
      requires ingestion.Has(sessionId)
      requires forall o | o in observed :: o.oversized <==> o.actualByteLength > MAX_INGESTION_RECORD_BYTES
      modifies ingestion.events, ingestion.diagnostics, ingestion.sequence
      ensures ingestion.Has(sessionId) && ingestion.OnlyChanges(sessionId)
      ensures found ==>
        (ingestion.View(sessionId), done)
        == IngestedAll(judge, old(ingestion.View(sessionId)), ItemsFrom(observed), random, disk)
      ensures !found ==> ingestion.View(sessionId) == old(ingestion.View(sessionId)) && done == (observed == [])
    {
      hide Ingested, IngestionService.View;
      ghost var items := ItemsFrom(observed);
      for i := 0 to |observed|
        invariant ingestion.Has(sessionId) && ingestion.OnlyChanges(sessionId)
        invariant found ==>
          IngestedAll(judge, old(ingestion.View(sessionId)), items, random, disk)
          == IngestedAll(judge, ingestion.View(sessionId), items[i..], random + i, disk)
        invariant !found ==> i == 0 && ingestion.View(sessionId) == old(ingestion.View(sessionId))
      {
        var item := ItemFrom(observed[i]);
        assert items[i..][0] == item && items[i..][1..] == items[i + 1..];
        var result;
        if observed[i].oversized {
          result := ingestion.IngestOversizedRecord(
            judge, sessionId, found, item, Random(random + i), disk(random + i));
        } else {
          result := ingestion.IngestRecord(judge, sessionId, found, item, Random(random + i), disk(random + i));
        }
        if result == Threw || result == NotFound { return false; }
      }
      assert items[|observed|..] == [];
      return true;
    }

    /** One tick for one session. `done` says that every record was ingested; random identifiers come from
        `random` on, and `disk` says which files can be written while each record is ingested. */
    method ProcessSessionWhileLocked(
        judge: Judge, sessionId: string, found: bool, random: nat, disk: nat -> Disk, cursorWritable: bool)
      returns (observed: seq<Observation>, written: Option<nat>, done: bool)
      requires ingestion.Has(sessionId) && sessionId in incoming && sessionId in cursors
      modifies this`cursors, ingestion.events, ingestion.diagnostics, ingestion.sequence
      ensures Tick(incoming[sessionId], StartOffset(incoming[sessionId], old(cursors[sessionId])), observed, written)
      ensures ingestion.Has(sessionId) && ingestion.OnlyChanges(sessionId)
      ensures found ==>
        (ingestion.View(sessionId), done)
        == IngestedAll(judge, old(ingestion.View(sessionId)), ItemsFrom(observed), random, disk)
      ensures !found ==> ingestion.View(sessionId) == old(ingestion.View(sessionId)) && done == (observed == [])
      ensures cursors == if written.Some? && done && cursorWritable
                         then old(cursors)[sessionId := Offset(written.value)]
                         else old(cursors)
    {
      hide Tick, IngestedAll, RecordsFrom;
      var file := incoming[sessionId];
      observed, written := ObserveTick(file, cursors[sessionId]);
      OversizedIsOversized(file, StartOffset(file, cursors[sessionId]), observed, written);
      done := IngestObserved(judge, sessionId, found, observed, random, disk);
      if written.Some? && done && cursorWritable {
        cursors := cursors[sessionId := Offset(written.value)];
      }
    }
  }

  lemma OversizedIsOversized(file: seq<byte>, offset: nat, observed: seq<Observation>, written: Option<nat>)
    requires Tick(file, offset, observed, written)
    ensures forall o | o in observed :: o.oversized <==> o.actualByteLength > MAX_INGESTION_RECORD_BYTES
  {
  }

  // --- ticks as runs -----------------------------------------------------------------------------------------

  lemma {:induction false} TwoSteps(judge: Judge, s: State, first: Step, second: Step)
    requires Enabled(judge, s, first) && Enabled(judge, Apply(judge, s, first), second)
    ensures Runs(judge, s, [first, second])
    ensures After(judge, s, [first, second]) == Apply(judge, Apply(judge, s, first), second)
  {
    hide Enabled, Apply;
    OneStep(judge, Apply(judge, s, first), second);
    assert [first, second][1..] == [second];
  }

  lemma {:induction false} OneStep(judge: Judge, s: State, step: Step)
    requires Enabled(judge, s, step)
    ensures Runs(judge, s, [step]) && After(judge, s, [step]) == Apply(judge, s, step)
  {
  }

  /** What a run leaves after ingesting the head record. */
  ghost predicate HeadIngested(judge: Judge, s: State, steps: seq<Step>, store: Store, result: IngestionResult, n: nat)
    requires AtStart(s.work)
  {
    && Runs(judge, s, steps) && OnlyOrdinary(steps)
    && var after := After(judge, s, steps);
       && after
          == s.(store := store, work := if result == Threw then Idle else HeadDone(s.work), random := after.random)
       && s.random <= after.random && (after.random <= n + 1)
  }

  lemma BadItemRun(judge: Judge, s: State, n: nat, disk: Disk) returns (steps: seq<Step>)
    requires AtStart(s.work) && n >= s.random && !Good(judge, s.work.todo[0])
    ensures var (store, result) := Ingested(judge, s.store, s.work.todo[0], Random(n), disk);
            HeadIngested(judge, s, steps, store, result, n)
  {
    hide Runs, After, Good, Tick;
    var d := Diagnostic(s.work.todo[0].id, ReasonFor(judge, s.work.todo[0]));
    if Diagnosed(s.store, [d], disk.diagnostics).1 {
      steps := [LoadDiagnosticIds, Fail];
      TwoSteps(judge, s, LoadDiagnosticIds, Fail);
    } else {
      steps := [Diagnose];
      OneStep(judge, s, Diagnose);
    }
  }

  lemma KnownItemRun(judge: Judge, s: State, n: nat, disk: Disk) returns (steps: seq<Step>)
    requires AtStart(s.work) && n >= s.random && Good(judge, s.work.todo[0])
    requires s.work.todo[0].id in s.store.KnownEvents()
    ensures var (store, result) := Ingested(judge, s.store, s.work.todo[0], Random(n), disk);
            HeadIngested(judge, s, steps, store, result, n)
  {
    hide Runs, After, Good, Tick;
    steps := [LoadEventIds, SkipKnown];
    TwoSteps(judge, s, LoadEventIds, SkipKnown);
  }

  /** A new record gets its number and its event. */
  lemma {:induction false} StoredRun(judge: Judge, s: State)
    requires AtStart(s.work) && Good(judge, s.work.todo[0]) && s.work.todo[0].id !in s.store.KnownEvents()
    ensures Runs(judge, s, [TakeNumber, AppendEvent])
    ensures var head := s.work.todo[0]; var verdict := judge(head.content);
            After(judge, s, [TakeNumber, AppendEvent])
            == s.(store := Appended(Numbered(s.store),
                                    Stored(head.id, s.store.Current() + 1, verdict.body, verdict.redacts)),
                  work := if verdict.redacts then s.work.(stage := HasEvent) else HeadDone(s.work))
  {
    hide Runs, After, Tick;
    TwoSteps(judge, s, TakeNumber, AppendEvent);
  }

  lemma NewItemRun(judge: Judge, s: State, n: nat, disk: Disk) returns (steps: seq<Step>)
    requires AtStart(s.work) && n >= s.random && Good(judge, s.work.todo[0])
    requires s.work.todo[0].id !in s.store.KnownEvents()
    ensures var (store, result) := Ingested(judge, s.store, s.work.todo[0], Random(n), disk);
            HeadIngested(judge, s, steps, store, result, n)
  {
    hide Runs, After, Tick, Numbered, Appended, Diagnosed;
    if !disk.events {
      TwoSteps(judge, s, TakeNumber, Fail);
      return [TakeNumber, Fail];
    }
    hide Enabled, Apply;
    var first := [TakeNumber, AppendEvent];
    StoredRun(judge, s);
    if !judge(s.work.todo[0].content).redacts { return first; }
    var middle := After(judge, s, first);
    var d := Diagnostic(Random(n), SecretRedacted(s.work.todo[0].id));
    var second := if Diagnosed(middle.store, [d], disk.diagnostics).1 then [LoadDiagnosticIds, Fail]
                  else [ReportRedaction(n)];
    ReportRun(judge, middle, n, disk.diagnostics);
    RunsAppend(judge, s, first, second);
    return first + second;
  }

  lemma {:induction false} ReportRun(judge: Judge, s: State, n: nat, writable: bool)
    requires s.work.Busy? && s.work.todo != [] && s.work.stage.HasEvent? && n >= s.random
    ensures var report := Diagnostic(Random(n), SecretRedacted(s.work.todo[0].id));
            var (store, threw) := Diagnosed(s.store, [report], writable);
            var steps := if threw then [LoadDiagnosticIds, Fail] else [ReportRedaction(n)];
            && Runs(judge, s, steps)
            && After(judge, s, steps)
               == if threw then s.(store := store, work := Idle)
                  else s.(store := store, work := HeadDone(s.work), random := n + 1)
  {
    hide Runs, After, Good, Tick;
    if Diagnosed(s.store, [Diagnostic(Random(n), SecretRedacted(s.work.todo[0].id))], writable).1 {
      TwoSteps(judge, s, LoadDiagnosticIds, Fail);
    } else {
      OneStep(judge, s, ReportRedaction(n));
    }
  }

  /** Ingesting the record at the head of the list, step by step. */
  lemma ItemRun(judge: Judge, s: State, n: nat, disk: Disk) returns (steps: seq<Step>)
    requires AtStart(s.work) && n >= s.random
    ensures var (store, result) := Ingested(judge, s.store, s.work.todo[0], Random(n), disk);
            HeadIngested(judge, s, steps, store, result, n)
  {
    hide HeadIngested, Ingested;
    if !Good(judge, s.work.todo[0]) {
      steps := BadItemRun(judge, s, n, disk);
    } else if s.work.todo[0].id in s.store.KnownEvents() {
      steps := KnownItemRun(judge, s, n, disk);
    } else {
      steps := NewItemRun(judge, s, n, disk);
    }
  }

  /** The rest of a tick. */
  lemma {:induction false} ItemsRun(judge: Judge, s: State, n: nat, disk: nat -> Disk) returns (steps: seq<Step>)
    requires s.work.Busy? && s.work.stage == Start && n >= s.random
    ensures Runs(judge, s, steps) && OnlyOrdinary(steps)
    ensures var (store, done) := IngestedAll(judge, s.store, s.work.todo, n, disk);
            var after := After(judge, s, steps);
            after == s.(
              cursor := if done && s.work.next.Some? then Offset(s.work.next.value) else s.cursor, store := store,
              work := Idle, random := after.random)
            && s.random <= after.random
    decreases |s.work.todo|
  {
    hide Ingested, Runs, After, RecordsFrom, Tick;
    if s.work.todo == [] {
      OneStep(judge, s, Finish);
      return [Finish];
    }
    var first := ItemRun(judge, s, n, disk(n));
    if Ingested(judge, s.store, s.work.todo[0], Random(n), disk(n)).1 == Threw { return first; }
    var second := ItemsRun(judge, After(judge, s, first), n + 1, disk);
    RunsAppend(judge, s, first, second);
    return first + second;
  }

  /** What the observer does in one tick is a run of the machine, so everything proved of the reachable states
      holds of the stores it leaves. With both files writable the tick ends with its cursor written. */
  lemma TickIsARun(judge: Judge, s: State, observed: seq<Observation>, written: nat, n: nat, disk: nat -> Disk)
      returns (steps: seq<Step>)
    requires s.work.Idle? && n >= s.random
    requires Tick(s.incoming, StartOffset(s.incoming, s.cursor), observed, Some(written))
    ensures Runs(judge, s, steps) && OnlyOrdinary(steps)
    ensures var (store, done) := IngestedAll(judge, s.store, ItemsFrom(observed), n, disk);
            var after := After(judge, s, steps);
            after == s.(cursor := if done then Offset(written) else s.cursor, store := store, random := after.random)
    ensures (forall k :: disk(k).events && disk(k).diagnostics) ==> After(judge, s, steps).cursor == Offset(written)
  {
    hide Runs, After, Tick, IngestedAll, ItemsFrom;
    var begin := BeginTick(observed, written);
    OneStep(judge, s, begin);
    var rest := ItemsRun(judge, Apply(judge, s, begin), n, disk);
    RunsAppend(judge, s, [begin], rest);
    if forall k :: disk(k).events && disk(k).diagnostics {
      NothingThrows(judge, s.store, ItemsFrom(observed), n, disk);
    }
    return [begin] + rest;
  }

  /** So is a posted record. */
  lemma PostIsARun(judge: Judge, s: State, content: seq<byte>, n: nat, disk: Disk) returns (steps: seq<Step>)
    requires s.work.Idle? && n >= s.random
    ensures Runs(judge, s, steps) && OnlyOrdinary(steps)
    ensures var store := Ingested(judge, s.store, PostedItem(content, n), Random(n + 1), disk).0;
            var after := After(judge, s, steps);
            after == s.(store := store, random := after.random) && n < after.random
  {
    hide Runs, After, Tick, Ingested;
    var begin := BeginHttp(content, n);
    OneStep(judge, s, begin);
    var busy := Apply(judge, s, begin);
    var rest := ItemsRun(judge, busy, n + 1, k => disk);
    RunsAppend(judge, s, [begin], rest);
    OneIngested(judge, s.store, PostedItem(content, n), n + 1, k => disk);
    return [begin] + rest;
  }

  /** A posted record is treated by its own length, under identifiers nobody else has. */
  lemma PostIsTreated(judge: Judge, s: Store, content: seq<byte>, n: nat, disk: Disk)
    ensures var (after, result) := Ingested(judge, s, PostedItem(content, n), Random(n + 1), disk);
            var previewByteLength := if |content| < 256 then |content| else 256;
            Treats(judge, s, after, Item(Random(n), content, |content|, previewByteLength), Random(n + 1), disk, result)
  {
    IngestedTreats(judge, s, PostedItem(content, n), Random(n + 1), disk);
    hide Ingested, Treats;
  }

  lemma {:induction false} OneIngested(judge: Judge, s: Store, item: Item, n: nat, disk: nat -> Disk)
    ensures IngestedAll(judge, s, [item], n, disk).0 == Ingested(judge, s, item, Random(n), disk(n)).0
  {
  }

  lemma {:induction false} NothingThrows(judge: Judge, s: Store, items: seq<Item>, n: nat, disk: nat -> Disk)
    requires forall k :: disk(k).events && disk(k).diagnostics
    ensures IngestedAll(judge, s, items, n, disk).1
    decreases |items|
  {
    if items != [] {
      NothingThrows(judge, Ingested(judge, s, items[0], Random(n), disk(n)).0, items[1..], n + 1, disk);
    }
  }

  /** Nothing is stored of a direct record before `offset`. */
  ghost predicate AllFrom(s: Store, offset: nat)
  {
    && (forall e | e in s.events :: e.id.Direct? ==> e.id.start >= offset)
    && (forall d | d in s.diagnostics :: d.id.Direct? ==> d.id.start >= offset)
  }

  lemma {:induction false} ObservedFrom(file: seq<byte>, offset: nat)
    ensures forall item | item in ItemsFrom(DescribedAll(RecordsFrom(file, offset))) ::
      item.id.Direct? && item.id.start >= offset
  {
    StartsIncrease(file, offset);
    hide RecordsFrom;
  }

  /** Ingesting records from `offset` on stores nothing of earlier ones. */
  lemma TickFrom(judge: Judge, s: Store, items: seq<Item>, n: nat, offset: nat)
    requires forall item | item in items :: item.id.Direct? && item.id.start >= offset
    ensures forall o: nat | o <= offset && AllFrom(s, o) ::
      AllFrom(IngestedAll(judge, s, items, n, k => Disk(true, true)).0, o)
  {
    forall o: nat | o <= offset && AllFrom(s, o)
      ensures AllFrom(IngestedAll(judge, s, items, n, k => Disk(true, true)).0, o)
    {
      IngestedFrom(judge, s, items, n, k => Disk(true, true), o);
    }
  }

  lemma {:induction false} IngestedFrom(
    judge: Judge, s: Store, items: seq<Item>, n: nat, disk: nat -> Disk, offset: nat)
    requires AllFrom(s, offset) && forall item | item in items :: item.id.Direct? && item.id.start >= offset
    ensures AllFrom(IngestedAll(judge, s, items, n, disk).0, offset)
    decreases |items|
  {
    hide Ingested, AllFrom;
    if items != [] {
      OneIngestedFrom(judge, s, items[0], n, disk(n), offset);
      IngestedFrom(judge, Ingested(judge, s, items[0], Random(n), disk(n)).0, items[1..], n + 1, disk, offset);
    }
  }

  lemma OneIngestedFrom(judge: Judge, s: Store, item: Item, n: nat, disk: Disk, offset: nat)
    requires AllFrom(s, offset) && item.id.Direct? && item.id.start >= offset
    ensures AllFrom(Ingested(judge, s, item, Random(n), disk).0, offset)
  {
    if !Good(judge, item) {
      DiagnosedFrom(s, Diagnostic(item.id, ReasonFor(judge, item)), disk.diagnostics, offset);
    } else if item.id !in s.KnownEvents() && disk.events && judge(item.content).redacts {
      var report := Diagnostic(Random(n), SecretRedacted(item.id));
      var stored := Stored(item.id, s.Current() + 1, judge(item.content).body, true);
      DiagnosedFrom(Appended(Numbered(s), stored), report, disk.diagnostics, offset);
    }
    hide Diagnosed;
  }

  lemma DiagnosedFrom(s: Store, d: Diagnostic, writable: bool, offset: nat)
    requires AllFrom(s, offset) && (d.id.Direct? ==> d.id.start >= offset)
    ensures AllFrom(Diagnosed(s, [d], writable).0, offset)
  {
    assert Unseen(s.KnownDiagnostics(), [d]) == if d.id in s.KnownDiagnostics() then [] else [d];
  }

  /** Where a tick gets to that has an LF before it: past the last one in its window, or else past the first. */
  function WindowEnd(file: seq<byte>, offset: nat): nat
    requires offset <= |file|
  {
    var end := offset + Min(|file| - offset, MAX_READ_BYTES);
    var last := LastBoundary(file[..end]);
    if last > offset then last else LineEnd(file, offset)
  }

  /** A tick that finds an LF gets past it, and no further than its window or one oversized record. */
  lemma {:induction false} NextTick(file: seq<byte>, offset: nat)
    requires offset <= |file| && HasLf(file, offset, |file|)
    ensures var next := WindowEnd(file, offset);
            offset < next <= |file| && Tick(file, offset, DescribedAll(RecordsFrom(file[..next], offset)), Some(next))
  {
    hide RecordsFrom, DescribedAll;
    var end, next := offset + Min(|file| - offset, MAX_READ_BYTES), WindowEnd(file, offset);
    var window := file[..end];
    assert forall i | 0 <= i < end :: window[i] == file[i];
    if LastBoundary(window) <= offset {
      assert forall i | offset <= i < end :: window[i] != LF;
      assert file[next - 1] == LF;
    }
    RecordsSplit(file, offset, next);
  }

  /** Between ticks the observer catches up: undisturbed ticks, each of at most one window or one oversized record,
      reach the end of the last complete line. */
  lemma {:induction false} CanDrain(judge: Judge, s: State) returns (steps: seq<Step>)
    requires s.work.Idle?
    ensures Runs(judge, s, steps) && OnlyOrdinary(steps)
    ensures After(judge, s, steps).incoming == s.incoming && Drained(After(judge, s, steps))
    ensures forall o: nat | o <= StartOffset(s.incoming, s.cursor) && AllFrom(s.store, o) ::
      AllFrom(After(judge, s, steps).store, o)
    decreases |s.incoming| - StartOffset(s.incoming, s.cursor)
  {
    var offset := StartOffset(s.incoming, s.cursor);
    if !HasLf(s.incoming, offset, |s.incoming|) { return []; }
    hide Runs, After, DescribedAll, IngestedAll, Tick, RecordsFrom, WindowEnd;
    var next := WindowEnd(s.incoming, offset);
    NextTick(s.incoming, offset);
    var observed := DescribedAll(RecordsFrom(s.incoming[..next], offset));
    var tick := TickIsARun(judge, s, observed, next, s.random, k => Disk(true, true));
    ObservedFrom(s.incoming[..next], offset);
    TickFrom(judge, s.store, ItemsFrom(observed), s.random, offset);
    var rest := CanDrain(judge, After(judge, s, tick));
    RunsAppend(judge, s, tick, rest);
    steps := tick + rest;
  }
}
