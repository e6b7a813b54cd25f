/** Whole histories: query pages and log pages taken while events arrive and resets run. */
module QueryHistory {
  import opened Common
  import opened QueryPage
  import opened QueryChains
  import opened QueryCommand
  import opened SessionSystem
  import opened QueryMeaning
  import EventLog
  import EventOrder
  import ExternalSort
  import LogPages

  /** serde_json and jaq: how a line reads, and what a program makes of it. */
  datatype Jaq = Jaq(classify: Classifier, run: (string, seq<byte>) -> Outcome, compiles: string -> bool)

  function EngineFor(jaq: Jaq, program: string): Engine
  {
    Engine(jaq.classify, (line: seq<byte>) => jaq.run(program, line), jaq.compiles(program))
  }

  function StatusOf(s: State): Status { Status(s.epoch, Highest(s.Log())) }

  function ScopeOf(plan: Plan): Scope { Scope(plan.hypotheses, plan.watermark as real) }

  function StartOf(plan: Plan): Position
  {
    if plan.continuation.Stream? then Position(plan.continuation.byteOffset, plan.continuation.outputOrdinal)
    else Position(0, 0)
  }

  function ToNative(page: QueryPage): NativePage
  {
    NativePage(
      page.results, if page.next.Some? then Some(page.next.value.byteOffset) else None,
      if page.next.Some? then Some(page.next.value.ordinal) else None)
  }

  /** A streaming command that succeeded: status read at `pre`, the file opened at `openedAt` and read up to
      its state at `read`, status read again at `post`. Deadline checks may have fired or not. */
  datatype Served = Served(
    options: QueryOptions, freshSpool: string, pre: nat, openedAt: nat, read: nat, post: nat,
    plan: Plan, page: QueryPage, output: Output)

  function LogSeen(b: Behaviour, s: Served): seq<Entry>
    requires s.openedAt < |b.states| && s.read < |b.states|
  {
    SeenThrough(b, s.openedAt, s.read)
  }

  ghost predicate ServedOk(jaq: Jaq, b: Behaviour, s: Served)
  {
    && s.pre <= s.openedAt <= s.read <= s.post < |b.states|
    && b.states[s.pre].Free() && b.states[s.post].Free()
    && Prepare(s.options, Some(StatusOf(b.states[s.pre])), s.freshSpool) == Ok(s.plan)
    && !s.plan.slurp && s.plan.limit >= 1
    && PageAt(EngineFor(jaq, s.plan.program), ScopeOf(s.plan), Bytes(LogSeen(b, s)), StartOf(s.plan), s.plan.limit,
              false, Ok(s.page))
    && Conclude(s.options.sessionId, s.plan, Ok(ToNative(s.page)), Some(StatusOf(b.states[s.post]))) == Ok(s.output)
  }

  /** A fresh query and then one command per returned cursor, until a page returns none. */
  ghost predicate FollowsCursors(served: seq<Served>)
  {
    && served != [] && served[0].options.cursor.None?
    && (forall k | 0 <= k < |served| - 1 :: served[k].output.nextCursor.Some?)
    && (forall k, n | 0 <= k < n < |served| && n == k + 1 ::
          served[n].options.cursor == served[k].output.nextCursor && served[k].post <= served[n].pre)
    && served[|served| - 1].output.nextCursor.None?
  }

  /** A walk of successful commands through a behaviour in which the log is not lost without a trace: no reset
      fails after clearing it, and no clearing of a failed reset lands. */
  ghost predicate Walk(jaq: Jaq, b: Behaviour, served: seq<Served>)
  {
    && Valid(jaq.classify, b) && FollowsCursors(served)
    && (forall i | 0 <= i < |served| ::
          served[i].pre <= served[i].openedAt <= served[i].read <= served[i].post < |b.states|)
    && (forall i | 0 <= i < |served| :: ServedOk(jaq, b, served[i]))
    && NoLoss(b, served[0].pre, served[|served| - 1].post)
  }

  function AllRows(served: seq<Served>): seq<string>
  {
    if served == [] then [] else AllRows(served[..|served| - 1]) + served[|served| - 1].output.rows
  }

  /** Every command of the walk runs the first one's query at its own continuation, in the first one's epoch. */
  lemma {:induction false} WalkKeepsQuery(jaq: Jaq, b: Behaviour, served: seq<Served>, k: nat)
    requires Walk(jaq, b, served)
    requires k < |served|
    ensures served[k].plan.program == served[0].plan.program && ScopeOf(served[k].plan) == ScopeOf(served[0].plan)
    ensures served[k].plan.limit == served[0].plan.limit
    ensures b.states[served[0].pre].epoch == b.states[served[k].pre].epoch == b.states[served[k].post].epoch
    ensures served[0].pre <= served[k].pre
    ensures if k == 0 then StartOf(served[k].plan) == Position(0, 0)
            else served[k - 1].page.next == Some(StartOf(served[k].plan))
  {
    hide PageAt, Valid, Bytes, Highest;
    assert ServedOk(jaq, b, served[k]);
    if k > 0 {
      WalkKeepsQuery(jaq, b, served, k - 1);
      assert ServedOk(jaq, b, served[k - 1]);
    }
  }

  lemma {:induction false} FilesOnlyGrow(classify: Classifier, b: Behaviour, inode: nat, i: nat, j: nat)
    requires Valid(classify, b) && i <= j < |b.states| && inode in b.states[i].files
    ensures inode in b.states[j].files && b.states[i].files[inode] <= b.states[j].files[inode]
    decreases j - i
  {
    hide Valid, Next, Inv;
    if i < j {
      StepAt(classify, b, j - 1);
      FilesOnlyGrow(classify, b, inode, i, j - 1);
      FileStep(classify, b.states[j - 1], b.steps[j - 1], b.states[j], inode);
    }
  }

  lemma FileStep(classify: Classifier, s: State, step: Step, s': State, inode: nat)
    requires Next(classify, s, step, s') && inode in s.files
    ensures inode in s'.files && s.files[inode] <= s'.files[inode]
  {
  }

  /** What page `k` read: the log of the first preflight, grown by sequences above the watermark. */
  lemma PageSeesGrownLog(jaq: Jaq, b: Behaviour, served: seq<Served>, k: nat)
    requires Walk(jaq, b, served) && k < |served|
    ensures var log0, seen := b.states[served[0].pre].Log(), LogSeen(b, served[k]);
            && log0 <= seen && (forall i | 0 <= i < |seen| :: Stored(jaq.classify, seen[i]))
            && (forall i | |log0| <= i < |seen| :: seen[i].sequence > Highest(log0))
    ensures b.states[served[k].read].current == b.states[served[0].pre].current
    ensures LogSeen(b, served[k]) == b.states[served[k].read].Log()
  {
    hide PageAt, Bytes, Highest, Prepare, Conclude, Next, Walk, Valid, NoLoss, Inv;
    ReadBounds(jaq, b, served, k);
    SeenIsGrown(jaq.classify, b, served[0].pre, served[k].openedAt, served[k].read, served[k].post);
  }

  lemma {:induction false} WalkOrder(jaq: Jaq, b: Behaviour, served: seq<Served>, i: nat, j: nat)
    requires Walk(jaq, b, served) && i <= j < |served|
    ensures served[i].post <= served[j].post && (i < j ==> served[i].post <= served[j].pre)
    decreases j - i
  {
    hide PageAt, Bytes, Highest, Prepare, Conclude;
    assert ServedOk(jaq, b, served[j]);
    if i < j { WalkOrder(jaq, b, served, i, j - 1); }
  }

  /** From page to page the log grew only outside the scope of the query. */
  lemma PagesSeeUnseenGrowth(jaq: Jaq, b: Behaviour, served: seq<Served>, k: nat)
    requires Walk(jaq, b, served)
    requires k + 1 < |served|
    ensures GrowsUnseen(EngineFor(jaq, served[0].plan.program), ScopeOf(served[0].plan),
                        Bytes(LogSeen(b, served[k])), Bytes(LogSeen(b, served[k + 1])))
  {
    hide PageAt, Bytes, Highest, Conclude, Next;
    PageSeesGrownLog(jaq, b, served, k);
    PageSeesGrownLog(jaq, b, served, k + 1);
    WalkOrder(jaq, b, served, k, k + 1);
    assert ServedOk(jaq, b, served[0]) && ServedOk(jaq, b, served[k]) && ServedOk(jaq, b, served[k + 1]);
    InvAlways(jaq.classify, b, served[k].read);
    FilesOnlyGrow(jaq.classify, b, b.states[served[k].read].current, served[k].read, served[k + 1].read);
    NewerEntriesGrowUnseen(EngineFor(jaq, served[0].plan.program), ScopeOf(served[0].plan),
                           LogSeen(b, served[k]), LogSeen(b, served[k + 1]));
  }

  lemma ReadBounds(jaq: Jaq, b: Behaviour, served: seq<Served>, k: nat)
    requires Walk(jaq, b, served) && k < |served|
    ensures var first, s := served[0], served[k];
            && Valid(jaq.classify, b) && first.pre <= s.openedAt <= s.read <= s.post < |b.states|
            && b.states[first.pre].Free() && b.states[s.post].Free()
            && b.states[first.pre].epoch == b.states[s.post].epoch && NoLoss(b, first.pre, s.post)
  {
    hide Walk, Valid, NoLoss;
    ServedInWalk(jaq, b, served, 0);
    ServedInWalk(jaq, b, served, k);
    WalkKeepsQuery(jaq, b, served, k);
    WalkOrder(jaq, b, served, k, |served| - 1);
    NoLossWithin(b, served[0].pre, served[|served| - 1].post, served[k].post);
  }

  lemma ServedInWalk(jaq: Jaq, b: Behaviour, served: seq<Served>, k: nat)
    requires Walk(jaq, b, served) && k < |served|
    ensures var first, last, s := served[0], served[|served| - 1], served[k];
            && Valid(jaq.classify, b) && NoLoss(b, first.pre, last.post)
            && s.pre <= s.openedAt <= s.read <= s.post < |b.states|
            && b.states[s.pre].Free() && b.states[s.post].Free()
  {
    hide Valid, NoLoss, FollowsCursors;
    assert ServedOk(jaq, b, served[k]);
  }

  lemma NoLossWithin(b: Behaviour, from: nat, to: nat, earlier: nat)
    requires NoLoss(b, from, to) && earlier <= to
    ensures NoLoss(b, from, earlier)
  {
  }

  /** The calls of a walk are a chain in the sense of the paging theorems. */
  lemma WalkIsChain(
    jaq: Jaq, b: Behaviour, served: seq<Served>, files: seq<seq<byte>>, starts: seq<Position>,
    results: seq<Result<QueryPage, Failure>>)
    requires Walk(jaq, b, served)
    requires |files| == |starts| == |results| == |served|
    requires forall i | 0 <= i < |served| ::
      && files[i] == Bytes(LogSeen(b, served[i])) && starts[i] == StartOf(served[i].plan)
      && results[i] == Ok(served[i].page)
    ensures Chain(EngineFor(jaq, served[0].plan.program), ScopeOf(served[0].plan), served[0].plan.limit, false,
                  files, starts, results)
  {
    hide PageAt, Bytes, Highest, Prepare, Conclude, Next, GrowsUnseen;
    var e, scope, limit := EngineFor(jaq, served[0].plan.program), ScopeOf(served[0].plan), served[0].plan.limit;
    assert ServedOk(jaq, b, served[0]);
    forall i | 0 <= i < |served|
      ensures PageAt(e, scope, files[i], starts[i], limit, false, results[i])
      ensures i == 0 ==> starts[i] == Position(0, 0)
      ensures i > 0 ==> results[i - 1].Ok? && results[i - 1].value.next == Some(starts[i])
    {
      WalkKeepsQuery(jaq, b, served, i);
      assert ServedOk(jaq, b, served[i]);
    }
    forall i | 0 <= i < |served| - 1 ensures GrowsUnseen(e, scope, files[i], files[i + 1]) {
      PagesSeeUnseenGrowth(jaq, b, served, i);
    }
  }

  lemma OutputIsPage(jaq: Jaq, b: Behaviour, s: Served)
    requires ServedOk(jaq, b, s)
    ensures s.output.rows == s.page.results && (s.output.nextCursor.None? <==> s.page.next.None?)
  {
  }

  /** A query without a cursor covers the whole log. */
  lemma FreshPlan(jaq: Jaq, b: Behaviour, s: Served)
    requires ServedOk(jaq, b, s) && s.options.cursor.None?
    ensures s.plan.program == s.options.requestedProgram
    ensures ScopeOf(s.plan) == Scope([], Highest(b.states[s.pre].Log()) as real)
  {
  }

  lemma {:induction false} RowsAgree(
    jaq: Jaq, b: Behaviour, served: seq<Served>, results: seq<Result<QueryPage, Failure>>, n: nat)
    requires n <= |served| == |results|
    requires forall i | 0 <= i < |served| :: ServedOk(jaq, b, served[i]) && results[i] == Ok(served[i].page)
    ensures AllRows(served[..n]) == Rows(results, n)
  {
    hide ServedOk;
    if n > 0 {
      assert served[..n][..n - 1] == served[..n - 1];
      RowsAgree(jaq, b, served, results, n - 1);
      OutputIsPage(jaq, b, served[n - 1]);
    }
  }

  /** The rows of a walk are one run over the log that the first page read. */
  lemma {:induction false} WalkIsFirstPagesRun(jaq: Jaq, b: Behaviour, served: seq<Served>)
    requires Walk(jaq, b, served)
    ensures var all := RunFrom(EngineFor(jaq, served[0].plan.program), ScopeOf(served[0].plan),
                               Bytes(LogSeen(b, served[0])), 0, 0);
            AllRows(served) == all.values && all.stop == Finished
  {
    hide PageAt, Bytes, Highest, Next, RunFrom, Prepare, Conclude, Valid, NoLoss, EngineFor, Chain, Rows, AllRows;
    var files := seq(|served|, i requires 0 <= i < |served| => Bytes(LogSeen(b, served[i])));
    var starts := seq(|served|, i requires 0 <= i < |served| => StartOf(served[i].plan));
    var results := seq(|served|, i requires 0 <= i < |served| => Result<QueryPage, Failure>.Ok(served[i].page));
    WalkIsChain(jaq, b, served, files, starts, results);
    OutputIsPage(jaq, b, served[|served| - 1]);
    var e, scope := EngineFor(jaq, served[0].plan.program), ScopeOf(served[0].plan);
    CompletedChain(e, scope, served[0].plan.limit, false, files, starts, results);
    RowsAgree(jaq, b, served, results, |served|);
    assert served[..|served|] == served;
  }

  /** In every interleaving with ingestion, restarts and resets, the rows of a walk of successful pages to
      its end are one run of the program over the log as it was at the first page's preflight, unless in between
      a reset fails after clearing the log or a clearing of a failed reset lands: what the program yields for every
      record, one after the other. */
  lemma {:induction false} WalkIsOneRun(jaq: Jaq, b: Behaviour, served: seq<Served>)
    requires Walk(jaq, b, served)
    ensures var log := b.states[served[0].pre].Log();
            var all := RunFrom(EngineFor(jaq, served[0].options.requestedProgram), Scope([], Highest(log) as real),
                               Bytes(log), 0, 0);
            AllRows(served) == all.values && all.stop == Finished
    ensures var log := b.states[served[0].pre].Log();
            && AllRows(served) == YieldAll(EngineFor(jaq, served[0].options.requestedProgram), log)
            && forall i | 0 <= i < |log| ::
                 var outcome := jaq.run(served[0].options.requestedProgram, log[i].text);
                 outcome.Outputs? && !outcome.failed
  {
    hide PageAt, Bytes, Highest, Next, GrowsUnseen, RunFrom, Prepare, Conclude, Valid, NoLoss, AllRows, YieldAll;
    hide Stored;
    WalkIsFirstPagesRun(jaq, b, served);
    FreshPlan(jaq, b, served[0]);
    PageSeesGrownLog(jaq, b, served, 0);
    var e, scope := EngineFor(jaq, served[0].plan.program), ScopeOf(served[0].plan);
    var log, seen := b.states[served[0].pre].Log(), LogSeen(b, served[0]);
    NewerEntriesGrowUnseen(e, scope, log, seen);
    FirstRun(e, scope, log, seen);
    forall i | 0 <= i < |log| ensures Stored(e.classify, log[i]) { assert log[i] == seen[i]; }
    FreshRunCoversTheLog(e, log);
  }

  lemma {:induction false} FirstRun(e: Engine, scope: Scope, earlier: seq<Entry>, later: seq<Entry>)
    requires GrowsUnseen(e, scope, Bytes(earlier), Bytes(later))
    ensures RunFrom(e, scope, Bytes(later), 0, 0) == RunFrom(e, scope, Bytes(earlier), 0, 0)
  {
    RunIgnoresGrowth(e, scope, Bytes(earlier), Bytes(later), 0, 0);
  }

  /** After a reset has cleared the log, no command of the old chain succeeds: a command that starts later
      rejects the cursor, and one already past its preflight fails its postflight check. */
  lemma ResetStopsTheChain(
    jaq: Jaq, b: Behaviour, issued: nat, k: nat, later: nat, options: QueryOptions, freshSpool: string, plan: Plan,
    native: Result<NativePage, NativeFailure>)
    requires Valid(jaq.classify, b) && issued <= k < later < |b.states| && NoLoss(b, issued, later)
    requires b.states[issued].Free() && b.states[later].Free()
    requires b.steps[k].ClearEvents?
    ensures options.cursor.Some? && options.cursor.value.evidenceEpoch == b.states[issued].epoch
        ==> Prepare(options, Some(StatusOf(b.states[later])), freshSpool).Err?
    ensures Prepare(options, Some(StatusOf(b.states[issued])), freshSpool) == Ok(plan)
        ==> Conclude(options.sessionId, plan, native, Some(StatusOf(b.states[later]))) == Err(CursorStale)
  {
    ResetChangesTheEpoch(jaq.classify, b, issued, k, later);
  }

  // --- log pages over the same histories -----------------------------------------------------------

  /** The log as the event store reads it, given how JSON.parse reads a stored text. */
  function LinesOf(parse: seq<byte> -> EventOrder.Event, log: seq<Entry>): seq<EventLog.Line>
  {
    seq(|log|, i requires 0 <= i < |log| => EventLog.Record(parse(log[i].text)))
  }

  /** JSON.parse finds the sequence that serde_json finds. */
  ghost predicate Agree(classify: Classifier, parse: seq<byte> -> EventOrder.Event)
  {
    forall x: Entry :: Stored(classify, x) ==> parse(x.text).sequence == x.sequence
  }

  lemma {:induction false} SameHighest(classify: Classifier, parse: seq<byte> -> EventOrder.Event, log: seq<Entry>)
    requires Agree(classify, parse) && forall i | 0 <= i < |log| :: Stored(classify, log[i])
    ensures EventLog.HighestSequence(LinesOf(parse, log)) == Highest(log)
  {
    if log != [] {
      var front, last := log[..|log| - 1], log[|log| - 1];
      SameHighest(classify, parse, front);
      var lines := LinesOf(parse, log);
      assert lines[..|log| - 1] == LinesOf(parse, front);
      assert lines[|log| - 1] == EventLog.Record(parse(last.text));
    }
  }

  /** Between two reads that report one epoch the log only grew in the sense of the log-page theorem. */
  lemma LogPagesSeeGrowth(
    classify: Classifier, parse: seq<byte> -> EventOrder.Event, b: Behaviour, first: nat, later: nat)
    requires Valid(classify, b) && first <= later < |b.states| && NoLoss(b, first, later)
    requires b.states[first].Free() && b.states[later].Free()
    requires b.states[first].epoch == b.states[later].epoch
    requires Agree(classify, parse)
    ensures LogPages.Grown(LinesOf(parse, b.states[first].Log()), LinesOf(parse, b.states[later].Log()))
  {
    hide EventLog.HighestSequence, Highest, Next, Valid;
    GrowthThroughout(classify, b, first, later, later);
    InvAlways(classify, b, first);
    InvAlways(classify, b, later);
    SameHighest(classify, parse, b.states[first].Log());
  }

  /** A log page that was answered, under the session lock, in the state number `at`. */
  datatype LogPage = LogPage(at: nat, answer: LogPages.LogsOutput)

  /** Log pages of one walk: the first request is a fresh one, the others carry its snapshot, and the epoch check
      let each of them through. */
  ghost predicate LogWalk(
    c: EventOrder.Collation, parse: seq<byte> -> EventOrder.Event, b: Behaviour, sessionId: string,
    hypotheses: seq<string>, limit: nat, pages: seq<LogPage>)
  {
    && pages != [] && b.states != []
    && (forall i | 0 <= i < |pages| :: pages[0].at <= pages[i].at < |b.states| && b.states[pages[i].at].Free())
    && (forall i | 0 <= i < |pages| ::
          var s := b.states[pages[i].at];
          var request := LogPages.PageRequest(hypotheses, limit, i, pages[0].answer.snapshot);
          && !ExternalSort.EpochRejects(LogPages.PageOptions(request), s.epoch)
          && pages[i].answer == LogPages.Answer(c, LinesOf(parse, s.Log()), s.epoch, sessionId, request))
  }

  function Records(pages: seq<LogPage>): seq<seq<EventOrder.Event>>
  {
    seq(|pages|, i requires 0 <= i < |pages| => pages[i].answer.records)
  }

  /** Log pages followed to the end through ingestion, restarts and resets are the sorted log of the first one's
      moment, page after page full but the last, if in between no reset fails after clearing the log and no
      clearing of a failed reset lands. */
  lemma {:induction false} LogWalkIsOneSnapshot(
    c: EventOrder.Collation, classify: Classifier, parse: seq<byte> -> EventOrder.Event, b: Behaviour,
    sessionId: string, hypotheses: seq<string>, limit: nat, pages: seq<LogPage>)
    requires Valid(classify, b) && Agree(classify, parse) && limit >= 1
    requires LogWalk(c, parse, b, sessionId, hypotheses, limit, pages) && b.states[pages[0].at].epoch != ""
    requires forall i | 0 <= i < |pages| :: NoLoss(b, pages[0].at, pages[i].at)
    requires forall i | 0 <= i < |pages| :: pages[i].answer.hasNext <==> i < |pages| - 1
    ensures var log := LinesOf(parse, b.states[pages[0].at].Log());
            && Concat(Records(pages)) == EventOrder.StableSort(c, EventLog.Matching(log, hypotheses, None))
            && EventOrder.Lists(c, Concat(Records(pages)), EventLog.Matching(log, hypotheses, None))
    ensures forall i | 0 <= i < |pages| - 1 :: |pages[i].answer.records| == limit
    ensures |pages| > 1 ==> pages[|pages| - 1].answer.records != []
  {
    hide Valid, Agree, NoLoss, LinesOf, EventLog.PageOf, LogPages.Grown, Concat, EventOrder.Lists;
    var epoch := b.states[pages[0].at].epoch;
    var logs := seq(|pages|, i requires 0 <= i < |pages| => LinesOf(parse, b.states[pages[i].at].Log()));
    var answers := seq(|pages|, i requires 0 <= i < |pages| => pages[i].answer);
    forall i | 0 <= i < |pages|
      ensures LogPages.Grown(logs[0], logs[i]) && b.states[pages[i].at].epoch == epoch
    {
      SnapshotEpoch(c, parse, b, sessionId, hypotheses, limit, pages, i);
      LogPagesSeeGrowth(classify, parse, b, pages[0].at, pages[i].at);
    }
    LogPages.PagesAreTheSnapshot(c, epoch, sessionId, hypotheses, limit, logs, answers, Records(pages));
  }

  lemma SnapshotEpoch(
    c: EventOrder.Collation, parse: seq<byte> -> EventOrder.Event, b: Behaviour, sessionId: string,
    hypotheses: seq<string>, limit: nat, pages: seq<LogPage>, i: nat)
    requires LogWalk(c, parse, b, sessionId, hypotheses, limit, pages) && b.states[pages[0].at].epoch != ""
    requires i < |pages|
    ensures b.states[pages[i].at].epoch == b.states[pages[0].at].epoch
  {
    hide LinesOf, EventLog.PageOf;
  }
}
