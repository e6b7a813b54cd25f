/** One session's ingestion as a transition system: probes append, the observer and HTTP requests ingest under
    the session lock, writes fail, the daemon crashes and starts again, the session is reset. */
module IngestionMachine {
  import opened Common
  import opened DirectAppend
  import opened Ingestion

  /** How far the record at the head of the list has come. */
  datatype Stage = Start | HasNumber(sequence: nat) | HasEvent

  /** What the holder of the lock still has to do; `next` is the cursor an observer's tick ends with. */
  datatype Work = Idle | Busy(todo: seq<Item>, stage: Stage, next: Option<nat>)

  /** What a reset clears, side by side. */
  datatype Part = Events | Diagnostics | SortFiles | Spools | Incoming | Cursor

  /** `random` is above every random identifier drawn so far. `pending` are clearings that run on after the
      reset that started them has thrown. `damaged` says that a failed reset, or a clearing that landed after one,
      has left files, caches and cursor at odds, and that nothing has emptied all of them since. */
  datatype State = State(
    incoming: seq<byte>, cursor: CursorFile, store: Store, work: Work, random: nat, pending: multiset<Part>,
    damaged: bool)

  datatype Step =
    | Append(bytes: seq<byte>)                              // a probe writes
    | BeginTick(observed: seq<Observation>, written: nat)   // the observer has read its window
    | BeginHttp(content: seq<byte>, n: nat)                 // a posted record, with the random id it will get
    | LoadEventIds | LoadDiagnosticIds                      // a cache is filled from its file
    | Diagnose | SkipKnown | TakeNumber | AppendEvent       // the head record moves on
    | ReportRedaction(n: nat)
    | Finish                                                // the cursor is written and the lock released
    | Fail                                                  // something throws; the lock is released
    | Restart                                               // the daemon dies and a new one starts
    | LoseCursor(cursor: CursorFile)                        // the cursor file vanishes or is damaged
    | Reset
    | ResetFails(undone: set<Part>, late: set<Part>, dropped: bool)  // part of it is not done, some still running
    | Land(part: Part)                                      // a clearing of a failed reset lands
    | Abandon(part: Part)                                   // or fails after all

  /** A record of the incoming file as an item, with the identifiers derived from where it starts and what it says. */
  function ItemOf(r: Rec): Item { ItemFrom(Described(r)) }

  function ItemFrom(o: Observation): Item
  {
    Item(Direct(o.start, o.hashed), o.hashed, o.actualByteLength, o.previewByteLength)
  }

  function ItemsOf(records: seq<Rec>): seq<Item>
  {
    seq(|records|, i requires 0 <= i < |records| => ItemOf(records[i]))
  }

  function ItemsFrom(observed: seq<Observation>): seq<Item>
  {
    seq(|observed|, i requires 0 <= i < |observed| => ItemFrom(observed[i]))
  }

  function PostedItem(content: seq<byte>, n: nat): Item
  {
    Item(Random(n), content, |content|, Min(|content|, MAX_MALFORMED_PREVIEW_BYTES))
  }

  predicate AtStart(w: Work) { w.Busy? && w.todo != [] && w.stage == Start }

  ghost predicate Enabled(judge: Judge, s: State, step: Step)
  {
    match step
    case Append(_) => true
    case BeginTick(observed, written) =>
      s.work.Idle? && Tick(s.incoming, StartOffset(s.incoming, s.cursor), observed, Some(written))
    case BeginHttp(_, n) => s.work.Idle? && n >= s.random
    case LoadEventIds => true
    case LoadDiagnosticIds => true
    case Diagnose => AtStart(s.work) && !Good(judge, s.work.todo[0])
    case SkipKnown => AtStart(s.work) && Good(judge, s.work.todo[0]) && s.work.todo[0].id in s.store.KnownEvents()
    case TakeNumber => AtStart(s.work) && Good(judge, s.work.todo[0]) && s.work.todo[0].id !in s.store.KnownEvents()
    case AppendEvent => s.work.Busy? && s.work.todo != [] && s.work.stage.HasNumber?
    case ReportRedaction(n) => s.work.Busy? && s.work.todo != [] && s.work.stage.HasEvent? && n >= s.random
    case Finish => s.work.Busy? && s.work.todo == []
    case Fail => s.work.Busy?
    case Restart => true
    case LoseCursor(cursor) => cursor == Missing || cursor == Corrupt
    case Reset => s.work.Idle?
    case ResetFails(undone, late, dropped) => s.work.Idle? && late <= undone && (dropped ==> undone == {})
    case Land(part) => part in s.pending
    case Abandon(part) => part in s.pending
  }

  /** No record lies before the cursor, and the cursor lies inside the file. */
  predicate CursorAtStart(file: seq<byte>, cursor: CursorFile)
  {
    && (cursor.Offset? ==> 0 <= cursor.offset <= |file|)
    && Boundary(file, StartOffset(file, cursor)) && RecordsFrom(file[..StartOffset(file, cursor)], 0) == []
  }

  /** A reset that leaves these parts as they are does no harm. */
  predicate Harmless(s: State, undone: set<Part>)
  {
    && (Events in undone ==> s.store.events == []) && (Diagnostics in undone ==> s.store.diagnostics == [])
    && CursorAtStart(if Incoming in undone then s.incoming else [], if Cursor in undone then s.cursor else Offset(0))
  }

  predicate NoneDirect(s: Store)
  {
    (forall e | e in s.events :: e.id.Random?) && (forall d | d in s.diagnostics :: d.id.Random?)
  }

  /** A clearing that lands now does no harm: there is nothing in the file or, for the incoming file, nothing of it
      has been stored or is about to be, and the cursor is at its start. */
  predicate LandsHarmlessly(s: State, part: Part)
  {
    match part
    case Events => s.store.events == []
    case Diagnostics => s.store.diagnostics == []
    case Incoming =>
      && NoneDirect(s.store) && (s.cursor.Offset? ==> s.cursor.offset == 0)
      && (s.work.Busy? && s.work.next.Some? ==> s.work.next.value == 0 && s.work.todo == [])
    case _ => true
  }

  /** Nothing is stored, remembered or under way. */
  predicate Blank(s: State)
  {
    && s.work.Idle? && s.store.events == [] && s.store.diagnostics == []
    && s.store.KnownEvents() == {} && s.store.KnownDiagnostics() == {} && CursorAtStart(s.incoming, s.cursor)
  }

  /** The caches are emptied at once, the files when their clearing lands. */
  function Cleared(s: Store, undone: set<Part>): Store
  {
    Store(if Events in undone then s.events else [], if Diagnostics in undone then s.diagnostics else [],
          Some({}), Some({}), s.counter)
  }

  /** A clearing lands: the file is emptied, whatever the daemon remembers of it. */
  function Landed(s: State, part: Part): State
  {
    match part
    case Events => s.(store := s.store.(events := []))
    case Diagnostics => s.(store := s.store.(diagnostics := []))
    case Incoming => s.(incoming := [])
    case Cursor => s.(cursor := Offset(0))
    case _ => s
  }

  function HeadDone(w: Work): Work
    requires w.Busy? && w.todo != []
  {
    Busy(w.todo[1..], Start, w.next)
  }

  ghost function Apply(judge: Judge, s: State, step: Step): State
    requires Enabled(judge, s, step)
  {
    match step
    case Append(bytes) => s.(incoming := s.incoming + bytes)
    case BeginTick(observed, written) => s.(work := Busy(ItemsFrom(observed), Start, Some(written)))
    case BeginHttp(content, n) => s.(work := Busy([PostedItem(content, n)], Start, None), random := n + 1)
    case LoadEventIds => s.(store := Remembered(s.store))
    case LoadDiagnosticIds => s.(store := s.store.(diagnosticIds := Some(s.store.KnownDiagnostics())))
    case Diagnose =>
      var head := s.work.todo[0];
      s.(store := Diagnosed(s.store, [Diagnostic(head.id, ReasonFor(judge, head))], true).0, work := HeadDone(s.work))
    case SkipKnown => s.(work := HeadDone(s.work))
    case TakeNumber =>
      s.(store := Numbered(s.store), work := s.work.(stage := HasNumber(s.store.Current() + 1)))
    case AppendEvent =>
      var head := s.work.todo[0];
      var verdict := judge(head.content);
      var body := if verdict.Valid? then verdict.body else "";
      s.(store := Appended(s.store, Stored(head.id, s.work.stage.sequence, body, verdict.Valid? && verdict.redacts)),
         work := if verdict.Valid? && verdict.redacts then s.work.(stage := HasEvent) else HeadDone(s.work))
    case ReportRedaction(n) =>
      var report := Diagnostic(Random(n), SecretRedacted(s.work.todo[0].id));
      s.(store := Diagnosed(s.store, [report], true).0, work := HeadDone(s.work), random := n + 1)
    case Finish =>
      s.(cursor := if s.work.next.Some? then Offset(s.work.next.value) else s.cursor, work := Idle)
    case Fail => s.(work := Idle)
    case Restart => s.(store := s.store.Restarted(), work := Idle, pending := multiset{})
    case LoseCursor(cursor) => s.(cursor := cursor)
    case Reset => s.(incoming := [], cursor := Offset(0), store := EMPTY, damaged := false)
    case ResetFails(undone, late, dropped) =>
      var store := Cleared(s.store, undone);
      s.(incoming := if Incoming in undone then s.incoming else [],
         cursor := if Cursor in undone then s.cursor else Offset(0),
         store := if dropped then store.(counter := None) else store,
         pending := s.pending + multiset(late), damaged := !Harmless(s, undone))
    case Land(part) =>
      var after := Landed(s, part).(pending := s.pending - multiset{part});
      after.(damaged := !Blank(after) && (s.damaged || !LandsHarmlessly(s, part)))
    case Abandon(part) => s.(pending := s.pending - multiset{part})
  }

  /** At any moment probes write, the cursor file is lost, what runs throws, and a clearing that is still running
      lands or fails. */
  lemma AnythingCanGoWrong(judge: Judge, s: State, bytes: seq<byte>)
    ensures Enabled(judge, s, Append(bytes)) && Apply(judge, s, Append(bytes)).incoming == s.incoming + bytes
    ensures Enabled(judge, s, LoseCursor(Missing)) && Apply(judge, s, LoseCursor(Missing)).cursor == Missing
    ensures Enabled(judge, s, LoseCursor(Corrupt)) && Apply(judge, s, LoseCursor(Corrupt)).cursor == Corrupt
    ensures s.work.Busy? ==> Enabled(judge, s, Fail)
    ensures forall part | part in s.pending :: Enabled(judge, s, Land(part)) && Enabled(judge, s, Abandon(part))
  {
    hide Tick, Good, Harmless, LandsHarmlessly, Blank, Diagnosed;
  }

  /** While nothing runs, any record may be posted, and any reset may succeed or fail in any way. */
  lemma AnythingCanBegin(judge: Judge, s: State)
    requires s.work.Idle?
    ensures forall content, n | n >= s.random :: Enabled(judge, s, BeginHttp(content, n))
    ensures Enabled(judge, s, Reset) && Enabled(judge, s, ResetFails({}, {}, true))
    ensures forall undone, late | late <= undone :: Enabled(judge, s, ResetFails(undone, late, false))
  {
  }

  /** A daemon can start again at any moment; it keeps what is in the files and forgets everything else. */
  lemma RestartForgets(judge: Judge, s: State)
    ensures Enabled(judge, s, Restart)
    ensures var after := Apply(judge, s, Restart);
            && after.incoming == s.incoming && after.cursor == s.cursor
            && after.work.Idle? && after.pending == multiset{}
            && after.store.events == s.store.events && after.store.diagnostics == s.store.diagnostics
            && after.store.KnownEvents() == EventIds(s.store.events)
            && after.store.KnownDiagnostics() == DiagnosticIds(s.store.diagnostics)
            && after.store.Current() == MaximumSequence(s.store.events)
  {
    hide Tick, Good, EventIds, DiagnosticIds, MaximumSequence;
  }

  /** A run of the system. */
  ghost predicate Runs(judge: Judge, s: State, steps: seq<Step>)
    decreases |steps|
  {
    steps == [] || (Enabled(judge, s, steps[0]) && Runs(judge, Apply(judge, s, steps[0]), steps[1..]))
  }

  ghost function After(judge: Judge, s: State, steps: seq<Step>): State
    requires Runs(judge, s, steps)
    decreases |steps|
  {
    if steps == [] then s else After(judge, Apply(judge, s, steps[0]), steps[1..])
  }

  /** A new session: empty files, nothing remembered. */
  const INITIAL := State([], Missing, Store([], [], None, None, None), Idle, 0, multiset{}, false)

  lemma {:induction false} RunsAppend(judge: Judge, s: State, first: seq<Step>, second: seq<Step>)
    requires Runs(judge, s, first) && Runs(judge, After(judge, s, first), second)
    ensures Runs(judge, s, first + second)
    ensures After(judge, s, first + second) == After(judge, After(judge, s, first), second)
    decreases |first|
  {
    hide Enabled, Apply;
    if first == [] {
      assert first + second == second;
    } else {
      assert (first + second)[1..] == first[1..] + second;
      RunsAppend(judge, Apply(judge, s, first[0]), first[1..], second);
    }
  }
}
