/** Exactly-once ingestion of direct appends, in every reachable state of the ingestion machine. */
module ExactlyOnce {
  import opened Common
  import opened DirectAppend
  import opened Ingestion
  import opened IngestionMachine
  import opened IngestionInvariants
  import opened DirectMarks

  /** `store` holds the traces of the records up to `front` at least, and otherwise of the next ones. */
  ghost predicate Covered(judge: Judge, incoming: seq<byte>, store: Store, front: seq<Item>)
  {
    Between(judge, front, store, Records(incoming, |incoming|))
  }

  /** Nothing behind the cursor is missing, nothing is stored out of place or twice. */
  ghost predicate CursorPlaced(judge: Judge, incoming: seq<byte>, cursor: CursorFile, store: Store)
  {
    && (cursor.Offset? ==> 0 <= cursor.offset <= |incoming|)
    && Boundary(incoming, StartOffset(incoming, cursor))
    && Covered(judge, incoming, store, Records(incoming, StartOffset(incoming, cursor)))
  }

  /** `todo` is what is left to do of the records in front of `n`; the others are taken care of. */
  ghost predicate WindowPlaced(judge: Judge, incoming: seq<byte>, store: Store, todo: seq<Item>, n: nat)
  {
    && n <= |incoming| && Boundary(incoming, n)
    && exists front :: Records(incoming, n) == front + todo && Covered(judge, incoming, store, front)
  }

  ghost predicate Placed(judge: Judge, s: State)
  {
    && CursorPlaced(judge, s.incoming, s.cursor, s.store)
    && (s.work.Busy? ==>
          match s.work.next
          case Some(n) => WindowPlaced(judge, s.incoming, s.store, s.work.todo, n)
          case None => forall i | i in s.work.todo :: i.id.Random?)
  }

  /** What holds unless a failed reset has done harm. */
  ghost predicate Sound(judge: Judge, s: State)
  {
    && CachesExact(s.store) && HeadOk(judge, s) && Unique(s.store.events, s.store.diagnostics)
    && RandomsDrawn(s) && Placed(judge, s)
  }

  ghost predicate Inv(judge: Judge, s: State)
  {
    NumbersOk(s) && PendingOk(s) && (!s.damaged ==> Sound(judge, s))
  }

  // --- what a step does to the marks -----------------------------------------------------------------------

  /** The item's mark is there afterwards, behind the ones that were there before. */
  ghost predicate Marked(judge: Judge, item: Item, before: Store, after: Store)
  {
    var events := Good(judge, item);
    && Marks(after, !events) == Marks(before, !events)
    && Marks(after, events)
       == Marks(before, events) + (if item.id in MarkIds(Marks(before, events)) then [] else [MarkOf(judge, item)])
  }

  ghost predicate SameMarks(before: Store, after: Store)
  {
    forall events: bool :: Marks(after, events) == Marks(before, events)
  }

  predicate MovesHead(step: Step) { step.Diagnose? || step.SkipKnown? || step.AppendEvent? || step.ReportRedaction? }

  lemma {:induction false} EventMarksSnoc(events: seq<Stored>, e: Stored)
    ensures EventMarks(events + [e]) == EventMarks(events) + (if e.id.Direct? then [EventMark(e.id, e.body)] else [])
  {
  }

  lemma {:induction false} DiagnosticMarksSnoc(diagnostics: seq<Diagnostic>, d: Diagnostic)
    ensures DiagnosticMarks(diagnostics + [d])
         == DiagnosticMarks(diagnostics) + (if d.id.Direct? then [DiagnosticMark(d.id, d.reason)] else [])
  {
  }

  lemma OneMoreDiagnostic(s: Store, d: Diagnostic)
    requires CachesExact(s)
    ensures var after := Diagnosed(s, [d], true).0;
            && Marks(after, true) == Marks(s, true)
            && (d.id.Random? ==> Marks(after, false) == Marks(s, false))
            && (d.id.Direct? ==>
                  Marks(after, false)
                  == Marks(s, false)
                     + (if d.id in MarkIds(Marks(s, false)) then [] else [DiagnosticMark(d.id, d.reason)]))
  {
    hide CachesExact, Diagnosed, DiagnosticMarks;
    DiagnosedOne(s, d);
    DiagnosticMarksSnoc(s.diagnostics, d);
    if d.id.Direct? { KnownDiagnosticIsMarked(s.diagnostics, d.id); }
    assert s.diagnostics + [] == s.diagnostics;
    assert Marks(s, false) + [] == Marks(s, false);
  }

  lemma HeadMarked(judge: Judge, s: State, step: Step)
    requires Enabled(judge, s, step) && MovesHead(step) && CachesExact(s.store) && HeadOk(judge, s)
    ensures var after := Apply(judge, s, step).store;
            if s.work.todo[0].id.Direct? then Marked(judge, s.work.todo[0], s.store, after)
            else SameMarks(s.store, after)
  {
    hide Diagnosed, EventMarks, DiagnosticMarks, MarkIds, Tick;
    var head, events := s.work.todo[0], s.store.events;
    assert forall ms: seq<Mark> :: ms + [] == ms;
    match step
    case Diagnose =>
      OneMoreDiagnostic(s.store, Diagnostic(head.id, ReasonFor(judge, head)));
    case ReportRedaction(n) =>
      OneMoreDiagnostic(s.store, Diagnostic(Random(n), SecretRedacted(head.id)));
      if head.id.Direct? { KnownEventIsMarked(events, head.id); }
    case SkipKnown =>
      if head.id.Direct? { KnownEventIsMarked(events, head.id); }
    case AppendEvent =>
      var e := Apply(judge, s, step).store.events[|events|];
      EventMarksSnoc(events, e);
      if head.id.Direct? { KnownEventIsMarked(events, head.id); }
  }

  lemma OtherMarks(judge: Judge, s: State, step: Step)
    requires Enabled(judge, s, step) && !MovesHead(step) && Ordinary(step)
    ensures SameMarks(s.store, Apply(judge, s, step).store)
  {
  }

  lemma BetweenSame(judge: Judge, front: seq<Item>, before: Store, after: Store, all: seq<Item>)
    requires Between(judge, front, before, all) && SameMarks(before, after)
    ensures Between(judge, front, after, all)
  {
  }

  lemma BetweenGrows(judge: Judge, front: seq<Item>, store: Store, all: seq<Item>, more: seq<Item>)
    requires Between(judge, front, store, all) && all <= more
    ensures Between(judge, front, store, more)
  {
    hide Marks, Expected;
    forall events: bool
      ensures Expected(judge, front, events) <= Marks(store, events)
      ensures Marks(store, events) <= Expected(judge, more, events)
    {
      assert Marks(store, events) <= Expected(judge, all, events);
      ExpectedPrefix(judge, all, more, events);
    }
  }

  // --- placement is kept -----------------------------------------------------------------------------------

  lemma RecordsDirect(file: seq<byte>, cut: nat)
    requires cut <= |file|
    ensures forall k | 0 <= k < |Records(file, cut)| :: Records(file, cut)[k].id.Direct?
  {
  }

  ghost predicate MarksGrow(before: Store, after: Store)
  {
    forall events: bool :: Marks(before, events) <= Marks(after, events)
  }

  /** The head of a window is dealt with: the window shrinks, and nothing that was covered is lost. */
  lemma HeadPlaced(judge: Judge, incoming: seq<byte>, before: Store, after: Store, todo: seq<Item>, n: nat)
    requires todo != [] && WindowPlaced(judge, incoming, before, todo, n)
    requires todo[0].id.Direct? ==> Marked(judge, todo[0], before, after)
    ensures todo[0].id.Direct? && MarksGrow(before, after)
    ensures WindowPlaced(judge, incoming, after, todo[1..], n) && WindowPlaced(judge, incoming, after, todo, n)
    ensures exists front :: Covered(judge, incoming, after, front)
  {
    hide Records, Between, Marks, DistinctIds, Marked, Boundary, MarksGrow;
    var whole, all := Records(incoming, n), Records(incoming, |incoming|);
    var front :| whole == front + todo && Covered(judge, incoming, before, front);
    RecordsDirect(incoming, n);
    assert todo[0] == whole[|front|];
    assert whole == (front + [todo[0]]) + todo[1..];
    RecordsPrefix(incoming, n);
    RecordsDistinct(incoming, |incoming|);
    AdvanceMarked(judge, front, todo[0], before, after, all);
    CoveredStays(judge, incoming, before, after, front, front + [todo[0]]);
    assert Covered(judge, incoming, after, front + [todo[0]]);
  }

  lemma CoveredStays(
    judge: Judge, incoming: seq<byte>, before: Store, after: Store, front: seq<Item>, longer: seq<Item>)
    requires Covered(judge, incoming, before, front) && Covered(judge, incoming, after, longer)
    requires MarksGrow(before, after)
    ensures Covered(judge, incoming, after, front)
  {
    hide Records, Marks, Expected, Between;
    StillBetween(judge, front, longer, before, after, Records(incoming, |incoming|));
  }

  lemma AdvanceMarked(judge: Judge, front: seq<Item>, item: Item, before: Store, after: Store, all: seq<Item>)
    requires front + [item] <= all && DistinctIds(all) && item.id.Direct?
    requires Between(judge, front, before, all) && Marked(judge, item, before, after)
    ensures Between(judge, front + [item], after, all) && MarksGrow(before, after)
  {
    hide Between, Marks, MarkIds, DistinctIds, Good;
    Advance(judge, front, item, before, after, all);
  }

  lemma PlacedHeadStep(judge: Judge, s: State, step: Step)
    requires Enabled(judge, s, step) && MovesHead(step) && CachesExact(s.store) && HeadOk(judge, s) && Placed(judge, s)
    ensures Placed(judge, Apply(judge, s, step))
  {
    hide CachesExact, HeadOk, WindowPlaced, CursorPlaced, Covered, Marked, MarksGrow, Diagnosed, Tick, Good, SameMarks;
    var after := Apply(judge, s, step);
    HeadMarked(judge, s, step);
    match s.work.next
    case Some(n) =>
      HeadPlaced(judge, s.incoming, s.store, after.store, s.work.todo, n);
      CursorKept(judge, s.incoming, s.cursor, s.store, after.store);
    case None =>
      CursorSame(judge, s.incoming, s.cursor, s.store, after.store);
  }

  lemma CursorKept(judge: Judge, incoming: seq<byte>, cursor: CursorFile, before: Store, after: Store)
    requires CursorPlaced(judge, incoming, cursor, before) && MarksGrow(before, after)
    requires exists front :: Covered(judge, incoming, after, front)
    ensures CursorPlaced(judge, incoming, cursor, after)
  {
    hide Records, Covered, Boundary, MarksGrow;
    var longer :| Covered(judge, incoming, after, longer);
    CoveredStays(judge, incoming, before, after, Records(incoming, StartOffset(incoming, cursor)), longer);
  }

  lemma CoveredSame(judge: Judge, incoming: seq<byte>, before: Store, after: Store, front: seq<Item>)
    requires Covered(judge, incoming, before, front) && SameMarks(before, after)
    ensures Covered(judge, incoming, after, front)
  {
    hide Records, Marks, Expected, Between, SameMarks;
    BetweenSame(judge, front, before, after, Records(incoming, |incoming|));
  }

  lemma CursorSame(judge: Judge, incoming: seq<byte>, cursor: CursorFile, before: Store, after: Store)
    requires CursorPlaced(judge, incoming, cursor, before) && SameMarks(before, after)
    ensures CursorPlaced(judge, incoming, cursor, after)
  {
    hide Records, Covered, Boundary, SameMarks;
    CoveredSame(judge, incoming, before, after, Records(incoming, StartOffset(incoming, cursor)));
  }

  lemma WindowSame(judge: Judge, incoming: seq<byte>, before: Store, after: Store, todo: seq<Item>, n: nat)
    requires WindowPlaced(judge, incoming, before, todo, n) && SameMarks(before, after)
    ensures WindowPlaced(judge, incoming, after, todo, n)
  {
    hide Records, Covered, Boundary, SameMarks;
    var front :| Records(incoming, n) == front + todo && Covered(judge, incoming, before, front);
    CoveredSame(judge, incoming, before, after, front);
  }

  lemma PlacedOtherStep(judge: Judge, s: State, step: Step)
    requires Enabled(judge, s, step) && Placed(judge, s)
    requires step.LoadEventIds? || step.LoadDiagnosticIds? || step.TakeNumber? || step.Fail? || step.Restart?
          || step.Abandon?
    ensures Placed(judge, Apply(judge, s, step))
  {
    hide CursorPlaced, WindowPlaced, Tick, SameMarks, Good, Remembered, Numbered;
    var after := Apply(judge, s, step);
    OtherMarks(judge, s, step);
    CursorSame(judge, s.incoming, s.cursor, s.store, after.store);
    if s.work.Busy? && s.work.next.Some? {
      WindowSame(judge, s.incoming, s.store, after.store, s.work.todo, s.work.next.value);
    }
  }

  /** A cut at a boundary of the file seen before is the same cut of the longer file. */
  lemma RecordsOfLonger(file: seq<byte>, more: seq<byte>, cut: nat)
    requires cut <= |file| && Boundary(file, cut)
    ensures Boundary(file + more, cut) && Records(file + more, cut) == Records(file, cut)
    ensures Records(file, |file|) <= Records(file + more, |file + more|)
  {
    hide RecordsFrom;
    RecordsGrow(file, more, cut);
    assert file[..|file|] == file && (file + more)[..|file + more|] == file + more;
    var before, after := RecordsFrom(file, 0), RecordsFrom(file + more, 0);
    assert after == before + after[|before|..];
    ItemsOfConcat(before, after[|before|..]);
  }

  lemma CoveredLonger(judge: Judge, incoming: seq<byte>, bytes: seq<byte>, store: Store, front: seq<Item>)
    requires Covered(judge, incoming, store, front)
    ensures Covered(judge, incoming + bytes, store, front)
  {
    hide Records, Between;
    RecordsOfLonger(incoming, bytes, 0);
    BetweenGrows(judge, front, store, Records(incoming, |incoming|), Records(incoming + bytes, |incoming + bytes|));
  }

  lemma PlacedAppend(judge: Judge, s: State, bytes: seq<byte>)
    requires Placed(judge, s)
    ensures Placed(judge, s.(incoming := s.incoming + bytes))
  {
    hide Records, Covered, Boundary;
    var offset := StartOffset(s.incoming, s.cursor);
    RecordsOfLonger(s.incoming, bytes, offset);
    CoveredLonger(judge, s.incoming, bytes, s.store, Records(s.incoming, offset));
    if s.work.Busy? && s.work.next.Some? {
      var n := s.work.next.value;
      var front :| Records(s.incoming, n) == front + s.work.todo && Covered(judge, s.incoming, s.store, front);
      RecordsOfLonger(s.incoming, bytes, n);
      CoveredLonger(judge, s.incoming, bytes, s.store, front);
    }
  }

  /** A tick opens a window at the cursor. */
  lemma WindowOpens(
    judge: Judge, incoming: seq<byte>, cursor: CursorFile, store: Store, observed: seq<Observation>, written: nat)
    requires CursorPlaced(judge, incoming, cursor, store)
    requires Tick(incoming, StartOffset(incoming, cursor), observed, Some(written))
    ensures WindowPlaced(judge, incoming, store, ItemsFrom(observed), written)
  {
    hide Records, Covered, Boundary, Tick, ItemsFrom;
    WindowRecords(incoming, StartOffset(incoming, cursor), observed, written);
  }

  lemma PlacedTick(judge: Judge, s: State, observed: seq<Observation>, written: nat)
    requires Enabled(judge, s, BeginTick(observed, written)) && Placed(judge, s)
    ensures Placed(judge, Apply(judge, s, BeginTick(observed, written)))
  {
    hide CursorPlaced, WindowPlaced, Tick, ItemsFrom;
    WindowOpens(judge, s.incoming, s.cursor, s.store, observed, written);
  }

  lemma NoRecords(file: seq<byte>)
    ensures Records(file, 0) == []
  {
  }

  /** A window that is done may be left behind the cursor. */
  lemma WindowCloses(judge: Judge, incoming: seq<byte>, store: Store, n: nat)
    requires WindowPlaced(judge, incoming, store, [], n)
    ensures CursorPlaced(judge, incoming, Offset(n), store)
  {
    hide Records, Covered, Boundary;
    var front :| Records(incoming, n) == front + [] && Covered(judge, incoming, store, front);
    assert front + [] == front;
  }

  lemma PlacedFinish(judge: Judge, s: State)
    requires Enabled(judge, s, Finish) && Placed(judge, s)
    ensures Placed(judge, Apply(judge, s, Finish))
  {
    hide CursorPlaced, WindowPlaced;
    if s.work.next.Some? { WindowCloses(judge, s.incoming, s.store, s.work.next.value); }
  }

  /** Without its cursor the observer starts over, which leaves nothing out. */
  lemma CursorLost(judge: Judge, incoming: seq<byte>, cursor: CursorFile, lost: CursorFile, store: Store)
    requires CursorPlaced(judge, incoming, cursor, store) && (lost.Offset? ==> lost.offset == 0)
    ensures CursorPlaced(judge, incoming, lost, store)
  {
    hide Records;
    NoRecords(incoming);
    hide Marks, Expected;
    Nothing(judge, store, Records(incoming, |incoming|));
  }

  lemma PlacedLoss(judge: Judge, s: State, cursor: CursorFile)
    requires Enabled(judge, s, LoseCursor(cursor)) && Placed(judge, s)
    ensures Placed(judge, Apply(judge, s, LoseCursor(cursor)))
  {
    hide CursorPlaced, WindowPlaced;
    CursorLost(judge, s.incoming, s.cursor, cursor, s.store);
  }

  lemma PlacedPost(judge: Judge, s: State, content: seq<byte>, n: nat)
    requires Enabled(judge, s, BeginHttp(content, n)) && Placed(judge, s)
    ensures Placed(judge, Apply(judge, s, BeginHttp(content, n)))
  {
    hide CursorPlaced, WindowPlaced;
  }

  lemma PlacedStep(judge: Judge, s: State, step: Step)
    requires Enabled(judge, s, step) && Ordinary(step)
    requires CachesExact(s.store) && HeadOk(judge, s) && Placed(judge, s)
    ensures Placed(judge, Apply(judge, s, step))
  {
    hide CachesExact, HeadOk, Placed, Enabled;
    if MovesHead(step) {
      PlacedHeadStep(judge, s, step);
    } else {
      match step
      case Append(bytes) => PlacedAppend(judge, s, bytes);
      case BeginTick(observed, written) => PlacedTick(judge, s, observed, written);
      case Finish => PlacedFinish(judge, s);
      case LoseCursor(cursor) => PlacedLoss(judge, s, cursor);
      case BeginHttp(content, n) => PlacedPost(judge, s, content, n);
      case _ => PlacedOtherStep(judge, s, step);
    }
  }

  lemma SoundStep(judge: Judge, s: State, step: Step)
    requires Enabled(judge, s, step) && Ordinary(step) && Sound(judge, s)
    ensures Sound(judge, Apply(judge, s, step))
  {
    hide CachesExact, HeadOk, Unique, RandomsDrawn, Placed, Enabled, Apply;
    CachesStep(judge, s, step);
    HeadStep(judge, s, step);
    UniqueStep(judge, s, step);
    RandomsStep(judge, s, step);
    PlacedStep(judge, s, step);
  }

  // --- failed resets, and clearings that land after one ----------------------------------------------------

  lemma {:induction false} NoEventMarks(events: seq<Stored>)
    ensures EventMarks(events) == [] <==> forall e | e in events :: e.id.Random?
  {
    if events != [] {
      var front, last := events[..|events| - 1], events[|events| - 1];
      NoEventMarks(front);
      assert events == front + [last];
    }
  }

  lemma {:induction false} NoDiagnosticMarks(diagnostics: seq<Diagnostic>)
    ensures DiagnosticMarks(diagnostics) == [] <==> forall d | d in diagnostics :: d.id.Random?
  {
    if diagnostics != [] {
      var front, last := diagnostics[..|diagnostics| - 1], diagnostics[|diagnostics| - 1];
      NoDiagnosticMarks(front);
      assert diagnostics == front + [last];
    }
  }

  lemma NoMarks(s: Store)
    ensures Marks(s, true) == [] && Marks(s, false) == [] <==> NoneDirect(s)
  {
    hide EventMarks, DiagnosticMarks;
    NoEventMarks(s.events);
    NoDiagnosticMarks(s.diagnostics);
  }

  /** Every record should leave a mark, in one file or the other. */
  lemma {:induction false} NothingExpected(judge: Judge, items: seq<Item>)
    ensures Expected(judge, items, true) == [] && Expected(judge, items, false) == [] <==> items == []
  {
    if items != [] { assert MarkOf(judge, items[|items| - 1]).EventMark? in {true, false}; }
  }

  /** With nothing stored of the direct records, the cursor is in its place if and only if it is at the start. */
  lemma PlacedAtStartIff(judge: Judge, incoming: seq<byte>, cursor: CursorFile, store: Store)
    requires NoneDirect(store)
    ensures CursorPlaced(judge, incoming, cursor, store) <==> CursorAtStart(incoming, cursor)
  {
    hide Marks, Expected, Boundary, RecordsFrom, ItemsOf, NoneDirect;
    NoMarks(store);
    var front := Records(incoming, StartOffset(incoming, cursor));
    NothingExpected(judge, front);
    SameEmptiness(RecordsFrom(incoming[..StartOffset(incoming, cursor)], 0));
    if front == [] {
      assert forall events: bool :: Marks(store, events) == [] by {
        forall events: bool ensures Marks(store, events) == [] { assert events == true || events == false; }
      }
      Nothing(judge, store, Records(incoming, |incoming|));
    }
    if Covered(judge, incoming, store, front) {
      assert Expected(judge, front, true) <= Marks(store, true) && Expected(judge, front, false) <= Marks(store, false);
    }
  }

  lemma SameEmptiness(rs: seq<Rec>)
    ensures ItemsOf(rs) == [] <==> rs == []
  {
    assert |ItemsOf(rs)| == |rs|;
  }

  lemma BlankIsSound(judge: Judge, s: State)
    requires Blank(s)
    ensures Sound(judge, s)
  {
    hide CursorPlaced, CursorAtStart, Records;
    PlacedAtStartIff(judge, s.incoming, s.cursor, s.store);
  }

  lemma NothingKnown(s: Store)
    requires CachesExact(s) && s.eventIds == Some({}) && s.diagnosticIds == Some({})
    ensures s.events == [] && s.diagnostics == []
  {
    assert s.events != [] ==> s.events[0].id in EventIds(s.events);
    assert s.diagnostics != [] ==> s.diagnostics[0].id in DiagnosticIds(s.diagnostics);
  }

  lemma SoundIsBlank(judge: Judge, s: State)
    requires Sound(judge, s) && s.work.Idle? && s.store.eventIds == Some({}) && s.store.diagnosticIds == Some({})
    ensures Blank(s)
  {
    hide CursorPlaced, CursorAtStart, Records, CachesExact, Unique, RandomsDrawn, WindowPlaced;
    NothingKnown(s.store);
    PlacedAtStartIff(judge, s.incoming, s.cursor, s.store);
  }

  lemma ResetIsBlankIff(judge: Judge, s: State, step: Step)
    requires Enabled(judge, s, step) && (step.Reset? || step.ResetFails?)
    ensures var after := Apply(judge, s, step);
            && after.work.Idle? && after.store.eventIds == Some({}) && after.store.diagnosticIds == Some({})
            && (Blank(after) <==> !after.damaged)
  {
    hide RecordsFrom;
    NoBytes();
  }

  lemma NoBytes()
    ensures CursorAtStart([], Offset(0)) && RecordsFrom([], 0) == []
  {
  }

  /** A reset, successful or not and whatever came before it, leaves a sound state behind if and only if it does no
      harm. */
  lemma ResetIsSoundIff(judge: Judge, s: State, step: Step)
    requires Enabled(judge, s, step) && (step.Reset? || step.ResetFails?)
    ensures Sound(judge, Apply(judge, s, step)) <==> !Apply(judge, s, step).damaged
  {
    hide Sound, Enabled, Apply, Blank;
    var after := Apply(judge, s, step);
    ResetIsBlankIff(judge, s, step);
    if Blank(after) { BlankIsSound(judge, after); }
    if Sound(judge, after) { SoundIsBlank(judge, after); }
  }

  /** Of an empty incoming file nothing is stored or under way. */
  lemma CoveredNothingIff(judge: Judge, store: Store)
    ensures Covered(judge, [], store, []) <==> NoneDirect(store)
  {
    hide Marks, Expected, RecordsFrom, ItemsOf, NoneDirect;
    NoMarks(store);
    NoRecords([]);
    NothingExpected(judge, []);
    forall events: bool ensures Expected(judge, [], events) == [] { assert events == true || events == false; }
    if Covered(judge, [], store, []) {
      assert Marks(store, true) <= Expected(judge, [], true) && Marks(store, false) <= Expected(judge, [], false);
    }
    if NoneDirect(store) {
      forall events: bool ensures Marks(store, events) == [] { assert events == true || events == false; }
    }
  }

  lemma LandedIncomingIff(judge: Judge, s: State)
    requires Placed(judge, s)
    ensures Placed(judge, s.(incoming := [])) <==> LandsHarmlessly(s, Incoming)
  {
    hide Covered, RecordsFrom, ItemsOf, NoneDirect;
    NoRecords([]);
    CoveredNothingIff(judge, s.store);
    if s.work.Busy? && s.work.next == Some(0) && s.work.todo == [] {
      assert Records([], 0) == [] + s.work.todo;
    }
  }

  lemma LandedLogIff(judge: Judge, s: State, part: Part)
    requires Enabled(judge, s, Land(part)) && Sound(judge, s) && PendingOk(s) && (part == Events || part == Diagnostics)
    ensures Sound(judge, Landed(s, part)) <==> LandsHarmlessly(s, part)
  {
    hide CursorPlaced, WindowPlaced, Records, Unique, RandomsDrawn;
    assert s.store.events != [] ==> s.store.events[0].id in EventIds(s.store.events);
    assert s.store.diagnostics != [] ==> s.store.diagnostics[0].id in DiagnosticIds(s.store.diagnostics);
  }

  /** From a sound state a clearing that lands leaves a sound one behind if and only if it does no harm. */
  lemma LandingIsSoundIff(judge: Judge, s: State, part: Part)
    requires Enabled(judge, s, Land(part)) && Sound(judge, s) && PendingOk(s)
    ensures Sound(judge, Apply(judge, s, Land(part))) <==> LandsHarmlessly(s, part)
  {
    FlagsAside(judge, Landed(s, part), Apply(judge, s, Land(part)));
    if part == Events || part == Diagnostics {
      LandedLogIff(judge, s, part);
    } else {
      LandedFileIff(judge, s, part);
    }
    hide *;
  }

  lemma LandedFileIff(judge: Judge, s: State, part: Part)
    requires Sound(judge, s) && part != Events && part != Diagnostics
    ensures Sound(judge, Landed(s, part)) <==> LandsHarmlessly(s, part)
  {
    hide CursorPlaced, WindowPlaced, Records, Unique, CachesExact, NoneDirect, Reported;
    if part == Incoming {
      LandedIncomingIff(judge, s);
    } else if part == Cursor {
      CursorLost(judge, s.incoming, s.cursor, Offset(0), s.store);
    }
  }

  lemma FlagsAside(judge: Judge, s: State, t: State)
    requires t == s.(pending := t.pending, damaged := t.damaged)
    ensures (Sound(judge, s) <==> Sound(judge, t)) && (Blank(s) <==> Blank(t))
  {
    hide CursorPlaced, WindowPlaced, Records, Unique, CachesExact, CursorAtStart, Reported;
  }

  lemma InvStep(judge: Judge, s: State, step: Step)
    requires Inv(judge, s) && Enabled(judge, s, step)
    ensures Inv(judge, Apply(judge, s, step))
  {
    hide NumbersOk, PendingOk, Sound, Enabled, Apply;
    NumbersStep(judge, s, step);
    PendingStep(judge, s, step);
    if step.Reset? || step.ResetFails? {
      ResetIsSoundIff(judge, s, step);
    } else if step.Land? {
      LandedInv(judge, s, step.part);
    } else if !s.damaged {
      SoundStep(judge, s, step);
    }
  }

  lemma LandedInv(judge: Judge, s: State, part: Part)
    requires Inv(judge, s) && Enabled(judge, s, Land(part))
    ensures !Apply(judge, s, Land(part)).damaged ==> Sound(judge, Apply(judge, s, Land(part)))
    ensures !s.damaged ==> (Sound(judge, Apply(judge, s, Land(part))) <==> !Apply(judge, s, Land(part)).damaged)
  {
    var after := Landed(s, part).(pending := s.pending - multiset{part});
    FlagsAside(judge, after, Apply(judge, s, Land(part)));
    hide NumbersOk, PendingOk, Sound, Blank, LandsHarmlessly, Landed;
    if Blank(Apply(judge, s, Land(part))) { BlankIsSound(judge, Apply(judge, s, Land(part))); }
    if !s.damaged { LandingIsSoundIff(judge, s, part); }
  }

  lemma {:induction false} InvAlways(judge: Judge, s: State, steps: seq<Step>)
    requires Inv(judge, s) && Runs(judge, s, steps)
    ensures Inv(judge, After(judge, s, steps))
    decreases |steps|
  {
    hide Inv, Enabled, Apply;
    if steps != [] {
      InvStep(judge, s, steps[0]);
      InvAlways(judge, Apply(judge, s, steps[0]), steps[1..]);
    }
  }

  lemma InvInitially(judge: Judge)
    ensures Inv(judge, INITIAL)
  {
  }

  // --- the theorems ------------------------------------------------------------------------------------------

  /** No complete line lies behind the cursor. */
  ghost predicate Drained(s: State)
  {
    s.work.Idle? && !HasLf(s.incoming, StartOffset(s.incoming, s.cursor), |s.incoming|)
  }

  lemma {:induction false} ExpectedMember(judge: Judge, items: seq<Item>, events: bool, m: Mark)
    ensures m in Expected(judge, items, events)
        <==> m.EventMark? == events && exists item :: item in items && MarkOf(judge, item) == m
  {
    if items != [] {
      var front, last := items[..|items| - 1], items[|items| - 1];
      ExpectedMember(judge, front, events, m);
      assert items == front + [last];
    }
  }

  lemma ItemOfLine(file: seq<byte>, item: Item)
    ensures item in Records(file, |file|) <==> exists r :: IsLine(file, r) && item == ItemOf(r)
  {
    assert file[..|file|] == file;
    var rs := RecordsFrom(file, 0);
    if item in Records(file, |file|) {
      var i :| 0 <= i < |rs| && ItemOf(rs[i]) == item;
      RecordsAreTheLines(file, 0, rs[i]);
    }
    if r :| IsLine(file, r) && item == ItemOf(r) {
      RecordsAreTheLines(file, 0, r);
      var i :| 0 <= i < |rs| && rs[i] == r;
      assert ItemsOf(rs)[i] == item;
    }
  }

  /** What is stored of the direct records of a sound state, line by line. */
  lemma TracesAreLines(judge: Judge, s: State, m: Mark, events: bool)
    requires Sound(judge, s) && m in Marks(s.store, events)
    ensures m.EventMark? == events && exists r :: IsLine(s.incoming, r) && MarkOf(judge, ItemOf(r)) == m
  {
    hide Records, Marks, Expected, CachesExact, NumbersOk, HeadOk, Unique, RandomsDrawn, IsLine;
    var all := Records(s.incoming, |s.incoming|);
    assert Marks(s.store, events) <= Expected(judge, all, events);
    ExpectedMember(judge, all, events, m);
    var item :| item in all && MarkOf(judge, item) == m;
    ItemOfLine(s.incoming, item);
  }

  /** A line that is short enough and that validation accepts. */
  predicate GoodLine(judge: Judge, r: Rec) { |r.content| <= 65536 && judge(r.content).Valid? }

  lemma {:induction false} StoredEventIsLine(judge: Judge, s: State, e: Stored)
    requires Sound(judge, s) && e in s.store.events && e.id.Direct?
    ensures var r := Rec(e.id.start, e.id.content);
            IsLine(s.incoming, r) && GoodLine(judge, r) && e.body == judge(r.content).body
  {
    hide Sound, IsLine, EventMarks;
    DirectEventIsMarked(s.store.events, e);
    var m := EventMark(e.id, e.body);
    assert m in Marks(s.store, true);
    TracesAreLines(judge, s, m, true);
    var r :| IsLine(s.incoming, r) && MarkOf(judge, ItemOf(r)) == m;
    assert r == Rec(e.id.start, e.id.content);
  }

  /** Of two good lines the earlier one is stored first, and so is the diagnostic of the earlier of two bad ones. */
  ghost predicate NoneSkipped(judge: Judge, s: State)
  {
    forall r, later | IsLine(s.incoming, r) && IsLine(s.incoming, later) && r.start < later.start ::
      var id, laterId := Direct(r.start, r.content), Direct(later.start, later.content);
      && (GoodLine(judge, r) && GoodLine(judge, later) && laterId in EventIds(s.store.events)
          ==> id in EventIds(s.store.events))
      && (!GoodLine(judge, r) && !GoodLine(judge, later) && laterId in DiagnosticIds(s.store.diagnostics)
          ==> id in DiagnosticIds(s.store.diagnostics))
  }

  lemma StoredInOrder(judge: Judge, s: State)
    requires Sound(judge, s)
    ensures EventsAscend(s.store.events) && DiagnosticsAscend(s.store.diagnostics)
  {
    var all := Records(s.incoming, |s.incoming|);
    RecordsAscend(s.incoming, |s.incoming|);
    hide Records, IsLine, CachesExact, HeadOk, Unique, RandomsDrawn, Expected, EventMarks, DiagnosticMarks;
    ExpectedAscends(judge, all, true);
    ExpectedAscends(judge, all, false);
    assert Marks(s.store, true) <= Expected(judge, all, true) && Marks(s.store, false) <= Expected(judge, all, false);
    MarkedEventsAscend(s.store.events);
    MarkedDiagnosticsAscend(s.store.diagnostics);
  }

  /** When a line has left its trace, the earlier lines of its kind have left theirs. */
  lemma EarlierIsThere(judge: Judge, s: State, r: Rec, later: Rec, events: bool)
    requires Sound(judge, s) && IsLine(s.incoming, r) && IsLine(s.incoming, later) && r.start < later.start
    requires GoodLine(judge, r) == GoodLine(judge, later) == events
    requires Direct(later.start, later.content) in MarkIds(Marks(s.store, events))
    ensures Direct(r.start, r.content) in MarkIds(Marks(s.store, events))
  {
    var all := Records(s.incoming, |s.incoming|);
    RecordsAscend(s.incoming, |s.incoming|);
    ItemOfLine(s.incoming, ItemOf(r));
    ItemOfLine(s.incoming, ItemOf(later));
    hide Records, IsLine, CachesExact, HeadOk, Unique, RandomsDrawn, Expected, Marks;
    var part, whole := Marks(s.store, events), Expected(judge, all, events);
    assert part <= whole;
    ExpectedAscends(judge, all, events);
    var m :| m in part && m.id == Direct(later.start, later.content);
    ExpectedMember(judge, all, events, MarkOf(judge, ItemOf(r)));
    NothingLeftOut(part, whole, MarkOf(judge, ItemOf(r)), m);
  }

  lemma SoundSkipsNone(judge: Judge, s: State)
    requires Sound(judge, s)
    ensures NoneSkipped(judge, s)
  {
    hide Sound, IsLine, EventIds, DiagnosticIds, MarkIds, EventMarks, DiagnosticMarks, GoodLine;
    forall r, later | IsLine(s.incoming, r) && IsLine(s.incoming, later) && r.start < later.start
      ensures var id, laterId := Direct(r.start, r.content), Direct(later.start, later.content);
              && (GoodLine(judge, r) && GoodLine(judge, later) && laterId in EventIds(s.store.events)
                  ==> id in EventIds(s.store.events))
              && (!GoodLine(judge, r) && !GoodLine(judge, later) && laterId in DiagnosticIds(s.store.diagnostics)
                  ==> id in DiagnosticIds(s.store.diagnostics))
    {
      var id, laterId := Direct(r.start, r.content), Direct(later.start, later.content);
      KnownEventIsMarked(s.store.events, id);
      KnownEventIsMarked(s.store.events, laterId);
      KnownDiagnosticIsMarked(s.store.diagnostics, id);
      KnownDiagnosticIsMarked(s.store.diagnostics, laterId);
      if GoodLine(judge, r) && GoodLine(judge, later) && laterId in EventIds(s.store.events) {
        EarlierIsThere(judge, s, r, later, true);
      }
      if !GoodLine(judge, r) && !GoodLine(judge, later) && laterId in DiagnosticIds(s.store.diagnostics) {
        EarlierIsThere(judge, s, r, later, false);
      }
    }
  }

  /** At most once and in order, whatever was lost or repeated on the way: the events of direct records are those
      of the first good lines, in the order of the lines, and the same holds of the diagnostics of bad lines; no
      identifier occurs twice. Sequence numbers increase even after failed resets. */
  lemma {:induction false} AtMostOnceInOrder(judge: Judge, steps: seq<Step>)
    requires Runs(judge, INITIAL, steps)
    ensures var s := After(judge, INITIAL, steps);
            && Increasing(s.store.events) && s.store.Current() >= MaximumSequence(s.store.events)
            && (!s.damaged ==>
                  && EventMarks(s.store.events) <= Expected(judge, Records(s.incoming, |s.incoming|), true)
                  && DiagnosticMarks(s.store.diagnostics) <= Expected(judge, Records(s.incoming, |s.incoming|), false)
                  && Unique(s.store.events, s.store.diagnostics) && CachesExact(s.store)
                  && EventsAscend(s.store.events) && DiagnosticsAscend(s.store.diagnostics) && NoneSkipped(judge, s)
                  && forall e | e in s.store.events && e.id.Direct? ::
                       var r := Rec(e.id.start, e.id.content);
                       IsLine(s.incoming, r) && GoodLine(judge, r) && e.body == judge(r.content).body)
  {
    InvInitially(judge);
    InvAlways(judge, INITIAL, steps);
    hide CachesExact, HeadOk, Unique, RandomsDrawn, Increasing, Records, Expected, EventMarks, DiagnosticMarks, After;
    hide EventsAscend, DiagnosticsAscend, NoneSkipped, IsLine, GoodLine;
    var s := After(judge, INITIAL, steps);
    if !s.damaged {
      StoredInOrder(judge, s);
      SoundSkipsNone(judge, s);
      forall e | e in s.store.events && e.id.Direct?
        ensures var r := Rec(e.id.start, e.id.content);
                IsLine(s.incoming, r) && GoodLine(judge, r) && e.body == judge(r.content).body
      {
        StoredEventIsLine(judge, s, e);
      }
      var all := Records(s.incoming, |s.incoming|);
      assert Marks(s.store, true) <= Expected(judge, all, true) && Marks(s.store, false) <= Expected(judge, all, false);
    }
  }

  /** Exactly once, as soon as nothing is left behind the cursor: every good line has its event and every bad
      line its diagnostic. */
  lemma {:induction false} ExactlyOnceWhenDrained(judge: Judge, steps: seq<Step>)
    requires Runs(judge, INITIAL, steps)
    ensures var s := After(judge, INITIAL, steps);
            Drained(s) && !s.damaged ==>
              && EventMarks(s.store.events) == Expected(judge, Records(s.incoming, |s.incoming|), true)
              && DiagnosticMarks(s.store.diagnostics) == Expected(judge, Records(s.incoming, |s.incoming|), false)
  {
    InvInitially(judge);
    InvAlways(judge, INITIAL, steps);
    var s := After(judge, INITIAL, steps);
    if Drained(s) && !s.damaged {
      DrainedMarks(judge, s, true);
      DrainedMarks(judge, s, false);
    }
  }

  lemma {:induction false} DrainedMarks(judge: Judge, s: State, events: bool)
    requires Sound(judge, s) && Drained(s)
    ensures Marks(s.store, events) == Expected(judge, Records(s.incoming, |s.incoming|), events)
  {
    hide CachesExact, NumbersOk, HeadOk, Unique, RandomsDrawn, Records, Expected, Marks, Boundary, HasLf, RecordsFrom;
    var offset, all := StartOffset(s.incoming, s.cursor), Records(s.incoming, |s.incoming|);
    RecordsPrefix(s.incoming, offset);
    NoLfNoRecords(s.incoming, offset);
    assert all == Records(s.incoming, offset);
    assert Expected(judge, all, events) <= Marks(s.store, events);
    assert Marks(s.store, events) <= Expected(judge, all, events);
  }

  /** Exactly one event has the identifier, and it says this. */
  ghost predicate OneEvent(events: seq<Stored>, id: Id, body: string)
  {
    exists i | 0 <= i < |events| ::
      events[i].id == id && events[i].body == body && forall j | 0 <= j < |events| && events[j].id == id :: j == i
  }

  ghost predicate OneDiagnostic(diagnostics: seq<Diagnostic>, d: Diagnostic)
  {
    exists i | 0 <= i < |diagnostics| ::
      diagnostics[i] == d && forall j | 0 <= j < |diagnostics| && diagnostics[j].id == d.id :: j == i
  }

  /** A line of more than 64 KiB leaves its length, one that is not JSON the length of its preview, one that is no
      event that fact, and any other one its event; and nothing else under its identifier. */
  ghost predicate LeavesItsTrace(judge: Judge, store: Store, r: Rec)
  {
    var id, length := Direct(r.start, r.content), |r.content|;
    if GoodLine(judge, r) then
      OneEvent(store.events, id, judge(r.content).body) && id !in DiagnosticIds(store.diagnostics)
    else
      && id !in EventIds(store.events)
      && OneDiagnostic(store.diagnostics, Diagnostic(id,
           if length > 65536 then OverLimit(length, 256)
           else if judge(r.content).BadJson? then InvalidJson(if length < 256 then length else 256)
           else InvalidSchema))
  }

  /** Line by line: a complete line has exactly one trace with its identifier, the one it should have. */
  lemma {:induction false} EveryLineOnce(judge: Judge, steps: seq<Step>, r: Rec)
    requires Runs(judge, INITIAL, steps)
    requires Drained(After(judge, INITIAL, steps)) && !After(judge, INITIAL, steps).damaged
    requires IsLine(After(judge, INITIAL, steps).incoming, r)
    ensures LeavesItsTrace(judge, After(judge, INITIAL, steps).store, r)
  {
    InvInitially(judge);
    InvAlways(judge, INITIAL, steps);
    hide After, Runs, Placed, CachesExact, NumbersOk, HeadOk, PendingOk, RandomsDrawn, Expected, Drained, IsLine;
    hide Records, Unique, LeavesItsTrace, MarkOf, Marks;
    var s, m := After(judge, INITIAL, steps), MarkOf(judge, ItemOf(r));
    var all := Records(s.incoming, |s.incoming|);
    DrainedMarks(judge, s, m.EventMark?);
    DrainedMarks(judge, s, !m.EventMark?);
    ItemOfLine(s.incoming, ItemOf(r));
    ExpectedMember(judge, all, m.EventMark?, m);
    OnlyOneKind(judge, all, ItemOf(r), s.incoming);
    MarkIsTrace(judge, s.store, r);
  }

  /** An expected mark with the identifier of a record is that record's. */
  lemma {:induction false} OnlyOneKind(judge: Judge, all: seq<Item>, item: Item, incoming: seq<byte>)
    requires all == Records(incoming, |incoming|) && item in all
    ensures forall m | m in Expected(judge, all, !MarkOf(judge, item).EventMark?) :: m.id != item.id
  {
    RecordsDistinct(incoming, |incoming|);
    hide Records, Expected;
    var events := !MarkOf(judge, item).EventMark?;
    forall m | m in Expected(judge, all, events) ensures m.id != item.id {
      ExpectedMember(judge, all, events, m);
      var other :| other in all && MarkOf(judge, other) == m;
      if other.id == item.id { SameIdSameItem(all, item, other); }
    }
  }

  lemma SameIdSameItem(all: seq<Item>, a: Item, b: Item)
    requires DistinctIds(all) && a in all && b in all && a.id == b.id
    ensures a == b
  {
    var i :| 0 <= i < |all| && all[i] == a;
    var j :| 0 <= j < |all| && all[j] == b;
  }

  lemma MarkIsTrace(judge: Judge, store: Store, r: Rec)
    requires Unique(store.events, store.diagnostics)
    requires var m := MarkOf(judge, ItemOf(r));
             m in Marks(store, m.EventMark?) && forall x | x in Marks(store, !m.EventMark?) :: x.id != ItemOf(r).id
    ensures LeavesItsTrace(judge, store, r)
  {
    var m, id := MarkOf(judge, ItemOf(r)), Direct(r.start, r.content);
    hide EventMarks, DiagnosticMarks, EventIds, DiagnosticIds;
    if m.EventMark? {
      MarkedEvent(store.events, m);
      KnownDiagnosticIsMarked(store.diagnostics, id);
      var i :| 0 <= i < |store.events| && store.events[i].id == m.id && store.events[i].body == m.body;
      forall j | 0 <= j < |store.events| && store.events[j].id == id ensures j == i {}
    } else {
      MarkedDiagnostic(store.diagnostics, m);
      KnownEventIsMarked(store.events, id);
      var i :| 0 <= i < |store.diagnostics| && store.diagnostics[i] == Diagnostic(m.id, m.reason);
      forall j | 0 <= j < |store.diagnostics| && store.diagnostics[j].id == id ensures j == i {}
    }
  }

  lemma {:induction false} MarkedEvent(events: seq<Stored>, m: Mark)
    requires m in EventMarks(events)
    ensures m.EventMark? && exists i | 0 <= i < |events| :: events[i].id == m.id && events[i].body == m.body
  {
    var front, e := events[..|events| - 1], events[|events| - 1];
    if m in EventMarks(front) {
      MarkedEvent(front, m);
      var i :| 0 <= i < |front| && front[i].id == m.id && front[i].body == m.body;
      assert events[i] == front[i];
    }
  }

  lemma {:induction false} MarkedDiagnostic(diagnostics: seq<Diagnostic>, m: Mark)
    requires m in DiagnosticMarks(diagnostics)
    ensures m.DiagnosticMark? && exists i | 0 <= i < |diagnostics| :: diagnostics[i] == Diagnostic(m.id, m.reason)
  {
    var front, d := diagnostics[..|diagnostics| - 1], diagnostics[|diagnostics| - 1];
    if m in DiagnosticMarks(front) {
      MarkedDiagnostic(front, m);
      var i :| 0 <= i < |front| && front[i] == Diagnostic(m.id, m.reason);
      assert diagnostics[i] == front[i];
    }
  }

  /** The duplicate check that would throw inside `ingest` never fires. */
  lemma {:induction false} AppendIsNeverDuplicate(judge: Judge, steps: seq<Step>)
    requires Runs(judge, INITIAL, steps)
    ensures var s := After(judge, INITIAL, steps);
            s.work.Busy? && s.work.stage.HasNumber? ==> s.work.todo != [] && s.work.todo[0].id !in s.store.KnownEvents()
  {
    InvInitially(judge);
    InvAlways(judge, INITIAL, steps);
  }

  /** Neither new bytes nor a reset, nor a clearing of one that empties a file of events, diagnostics or lines. */
  predicate Replays(step: Step)
  {
    && !step.Append? && !step.Reset? && !step.ResetFails?
    && (step.Land? ==> step.part !in {Events, Diagnostics, Incoming})
  }

  ghost predicate OnlyReplays(steps: seq<Step>)
  {
    forall k | 0 <= k < |steps| :: Replays(steps[k])
  }

  /** Replaying changes nothing: once drained, no run without new bytes or a reset adds a trace of a direct
      record, however often the daemon restarts or the cursor is lost. */
  lemma {:induction false} ReplayAddsNothing(judge: Judge, s: State, steps: seq<Step>)
    requires Inv(judge, s) && !s.damaged && Drained(s) && Runs(judge, s, steps) && OnlyReplays(steps)
    ensures SameMarks(s.store, After(judge, s, steps).store)
  {
    InvAlways(judge, s, steps);
    MarksOnlyGrow(judge, s, steps);
    hide After, Runs, Enabled, Apply, Records, Expected, Marks, CachesExact, HeadOk, Unique, RandomsDrawn, Drained;
    hide NumbersOk, PendingOk;
    var after := After(judge, s, steps);
    forall events: bool ensures Marks(after.store, events) == Marks(s.store, events) {
      DrainedMarks(judge, s, events);
      assert Marks(after.store, events) <= Expected(judge, Records(after.incoming, |after.incoming|), events);
      assert Marks(s.store, events) <= Marks(after.store, events);
    }
  }

  lemma MarkedGrows(judge: Judge, item: Item, before: Store, after: Store)
    requires Marked(judge, item, before, after)
    ensures MarksGrow(before, after)
  {
    hide Marks, MarkIds;
    forall events: bool ensures Marks(before, events) <= Marks(after, events) {
      if events != Good(judge, item) { assert events == !Good(judge, item); }
    }
  }

  lemma SameMarksGrow(before: Store, after: Store)
    requires SameMarks(before, after)
    ensures MarksGrow(before, after)
  {
    hide Marks;
  }

  lemma NothingNew(judge: Judge, s: State, step: Step)
    requires Enabled(judge, s, step) && Ordinary(step) && !step.Append?
    ensures Apply(judge, s, step).incoming == s.incoming
  {
    hide Tick, Good, Diagnosed, Numbered, Appended, Remembered;
  }

  lemma OrdinaryMarksGrow(judge: Judge, s: State, step: Step)
    requires Enabled(judge, s, step) && Ordinary(step) && CachesExact(s.store) && HeadOk(judge, s)
    ensures MarksGrow(s.store, Apply(judge, s, step).store)
  {
    if MovesHead(step) { HasHead(judge, s, step); }
    hide CachesExact, HeadOk, Enabled, Apply, Marked, SameMarks, MarksGrow;
    if MovesHead(step) {
      HeadMarked(judge, s, step);
      var item, after := s.work.todo[0], Apply(judge, s, step).store;
      if item.id.Direct? { MarkedGrows(judge, item, s.store, after); } else { SameMarksGrow(s.store, after); }
    } else {
      OtherMarks(judge, s, step);
      SameMarksGrow(s.store, Apply(judge, s, step).store);
    }
  }

  lemma HasHead(judge: Judge, s: State, step: Step)
    requires Enabled(judge, s, step) && MovesHead(step)
    ensures s.work.Busy? && s.work.todo != []
  {
  }

  lemma MarksGrowStep(judge: Judge, s: State, step: Step)
    requires Enabled(judge, s, step) && Inv(judge, s) && !s.damaged && Replays(step)
    ensures MarksGrow(s.store, Apply(judge, s, step).store)
    ensures Apply(judge, s, step).incoming == s.incoming && !Apply(judge, s, step).damaged
  {
    hide CachesExact, NumbersOk, HeadOk, Unique, RandomsDrawn, Placed, PendingOk, Enabled, Apply, MarksGrow;
    if step.Land? {
      LandsUnchanged(judge, s, step);
    } else {
      PendingStep(judge, s, step);
      OrdinaryMarksGrow(judge, s, step);
      NothingNew(judge, s, step);
    }
  }

  lemma LandsUnchanged(judge: Judge, s: State, step: Step)
    requires Enabled(judge, s, step) && step.Land? && Replays(step) && !s.damaged
    ensures Apply(judge, s, step).incoming == s.incoming && MarksGrow(s.store, Apply(judge, s, step).store)
    ensures !Apply(judge, s, step).damaged
  {
    hide Marks, Blank;
  }

  lemma {:induction false} MarksOnlyGrow(judge: Judge, s: State, steps: seq<Step>)
    requires Inv(judge, s) && !s.damaged && Runs(judge, s, steps) && OnlyReplays(steps)
    ensures MarksGrow(s.store, After(judge, s, steps).store)
    ensures After(judge, s, steps).incoming == s.incoming && !After(judge, s, steps).damaged
    decreases |steps|
  {
    hide Inv, Enabled, Apply, Marks;
    if steps != [] {
      var next := Apply(judge, s, steps[0]);
      InvStep(judge, s, steps[0]);
      MarksGrowStep(judge, s, steps[0]);
      MarksOnlyGrow(judge, next, steps[1..]);
      forall events: bool ensures Marks(s.store, events) <= Marks(After(judge, s, steps).store, events) {
        assert Marks(s.store, events) <= Marks(next.store, events);
        assert Marks(next.store, events) <= Marks(After(judge, next, steps[1..]).store, events);
      }
    }
  }
}
