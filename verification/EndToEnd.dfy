/** From the lines that probes append to the pages that `logs` and `query` return. */
module EndToEnd {
  import opened Common
  import opened DirectAppend
  import opened Ingestion
  import opened IngestionMachine
  import opened DirectMarks
  import opened ExactlyOnce
  import opened IngestionInvariants
  import opened IngestionRefinement
  import EventLog
  import EventOrder
  import QueryHistory
  import QueryMeaning
  import QueryPage
  import Session = SessionSystem

  type Parser = seq<byte> -> EventOrder.Event

  /** The stored events as JSON.parse reads them back. */
  function ReadBack(render: Renderer, parse: Parser, events: seq<Stored>): seq<EventOrder.Event>
  {
    seq(|events|, i requires 0 <= i < |events| => parse(render(events[i])))
  }

  lemma {:induction false} EveryEventMatches(render: Renderer, parse: Parser, events: seq<Stored>)
    ensures EventLog.Matching(QueryHistory.LinesOf(parse, Entries(render, events)), [], None)
         == ReadBack(render, parse, events)
  {
    var lines := QueryHistory.LinesOf(parse, Entries(render, events));
    if events != [] {
      var last := |events| - 1;
      EveryEventMatches(render, parse, events[..last]);
      assert lines[..last] == QueryHistory.LinesOf(parse, Entries(render, events[..last]));
      assert lines[last] == EventLog.Record(parse(render(events[last])));
      assert ReadBack(render, parse, events) == ReadBack(render, parse, events[..last]) + [parse(render(events[last]))];
    }
  }

  lemma {:induction false} PrefixRuns(judge: Judge, s: State, steps: seq<Step>, n: nat)
    requires Runs(judge, s, steps) && n <= |steps|
    ensures Runs(judge, s, steps[..n]) && After(judge, s, steps[..n]) == StateAt(judge, s, steps, n)
    decreases |steps|
  {
    hide Enabled, Apply;
    if n > 0 {
      PrefixRuns(judge, Apply(judge, s, steps[0]), steps[1..], n - 1);
      assert steps[..n][1..] == steps[1..][..n - 1];
    }
  }

  /** The stored events, posted ones apart: one for every good line, with what validation made of the line, and no
      others; in the order of the lines. */
  ghost predicate HoldsTheLines(judge: Judge, s: State)
  {
    && EventMarks(s.store.events) == Expected(judge, Records(s.incoming, |s.incoming|), true)
    && (forall r | IsLine(s.incoming, r) && GoodLine(judge, r) ::
          OneEvent(s.store.events, Direct(r.start, r.content), judge(r.content).body))
    && EventsAscend(s.store.events)
    && (forall e | e in s.store.events && e.id.Direct? ::
          var r := Rec(e.id.start, e.id.content);
          IsLine(s.incoming, r) && GoodLine(judge, r) && e.body == judge(r.content).body)
  }

  lemma {:induction false} DrainedHoldsTheLines(judge: Judge, steps: seq<Step>, n: nat)
    requires Runs(judge, INITIAL, steps) && n <= |steps|
    requires var s := StateAt(judge, INITIAL, steps, n); Drained(s) && !s.damaged
    ensures HoldsTheLines(judge, StateAt(judge, INITIAL, steps, n))
  {
    PrefixRuns(judge, INITIAL, steps, n);
    ExactlyOnceWhenDrained(judge, steps[..n]);
    InvInitially(judge);
    InvAlways(judge, INITIAL, steps[..n]);
    hide Runs, After, StateAt, Drained, EventMarks, Expected, IsLine, Records, OneEvent, Sound, NumbersOk, PendingOk;
    hide EventsAscend;
    var s := StateAt(judge, INITIAL, steps, n);
    StoredInOrder(judge, s);
    forall r | IsLine(s.incoming, r) && GoodLine(judge, r)
      ensures OneEvent(s.store.events, Direct(r.start, r.content), judge(r.content).body)
    {
      EveryLineOnce(judge, steps[..n], r);
    }
    forall e | e in s.store.events && e.id.Direct?
      ensures var r := Rec(e.id.start, e.id.content);
              IsLine(s.incoming, r) && GoodLine(judge, r) && e.body == judge(r.content).body
    {
      StoredEventIsLine(judge, s, e);
    }
  }

  /** The log that a walk starts with, when it starts at moment `n` of the ingestion run. */
  lemma {:induction false} LogOfMoment(
    judge: Judge, classify: Session.Classifier, render: Renderer, steps: seq<Step>, b: Session.Behaviour,
    at: seq<nat>, n: nat)
    requires Runs(judge, INITIAL, steps) && Follows(judge, classify, render, INITIAL, steps, b, at) && n <= |steps|
    ensures at[n] < |b.states|
    ensures var events := StateAt(judge, INITIAL, steps, n).store.events;
            && b.states[at[n]].Log() == Entries(render, events)
            && Session.Highest(b.states[at[n]].Log()) == MaximumSequence(events)
  {
    hide Runs, StateAt, Session.Inv, Entries;
    assert Shows(classify, render, StateAt(judge, INITIAL, steps, n), b.states[at[n]]);
    SameMaximum(render, StateAt(judge, INITIAL, steps, n).store.events);
  }

  /** A log walk that starts when nothing is left behind the cursor lists, sorted and each once, exactly the stored
      events: one for every good line, and the posted ones. Ingestion, crashes and resets may go on meanwhile. */
  lemma {:induction false} LogWalkListsTheLines(
    judge: Judge, classify: Session.Classifier, render: Renderer, parse: Parser, c: EventOrder.Collation,
    steps: seq<Step>, b: Session.Behaviour, at: seq<nat>, n: nat, sessionId: string, limit: nat,
    pages: seq<QueryHistory.LogPage>)
    requires Runs(judge, INITIAL, steps) && Follows(judge, classify, render, INITIAL, steps, b, at) && n <= |steps|
    requires var s := StateAt(judge, INITIAL, steps, n); Drained(s) && !s.damaged
    requires Session.Valid(classify, b) && QueryHistory.Agree(classify, parse) && limit >= 1
    requires QueryHistory.LogWalk(c, parse, b, sessionId, [], limit, pages) && pages[0].at == at[n]
    requires b.states[at[n]].epoch != ""
    requires forall i | 0 <= i < |pages| :: Session.NoLoss(b, pages[0].at, pages[i].at)
    requires forall i | 0 <= i < |pages| :: pages[i].answer.hasNext <==> i < |pages| - 1
    ensures var s, listed := StateAt(judge, INITIAL, steps, n), Concat(QueryHistory.Records(pages));
            && HoldsTheLines(judge, s)
            && listed == EventOrder.StableSort(c, ReadBack(render, parse, s.store.events))
            && EventOrder.Lists(c, listed, ReadBack(render, parse, s.store.events))
  {
    hide Runs, StateAt, Follows, Drained, HoldsTheLines, Session.Valid, QueryHistory.Agree, Session.NoLoss, Concat;
    hide ReadBack, QueryHistory.LinesOf, Entries, EventLog.Matching, EventOrder.StableSort, Session.Highest;
    DrainedHoldsTheLines(judge, steps, n);
    LogOfMoment(judge, classify, render, steps, b, at, n);
    QueryHistory.LogWalkIsOneSnapshot(c, classify, parse, b, sessionId, [], limit, pages);
    var events := StateAt(judge, INITIAL, steps, n).store.events;
    EveryEventMatches(render, parse, events);
    EventOrder.StableSortLists(c, ReadBack(render, parse, events));
  }

  /** A query walk that starts when nothing is left behind the cursor returns the outputs of one run over exactly
      those events, as they were stored. */
  lemma {:induction false} QueryWalkRunsOverTheLines(
    judge: Judge, jaq: QueryHistory.Jaq, render: Renderer, steps: seq<Step>, b: Session.Behaviour, at: seq<nat>,
    n: nat, served: seq<QueryHistory.Served>)
    requires Runs(judge, INITIAL, steps) && Follows(judge, jaq.classify, render, INITIAL, steps, b, at) && n <= |steps|
    requires var s := StateAt(judge, INITIAL, steps, n); Drained(s) && !s.damaged
    requires QueryHistory.Walk(jaq, b, served) && served[0].pre == at[n]
    ensures var s := StateAt(judge, INITIAL, steps, n);
            var e := QueryHistory.EngineFor(jaq, served[0].options.requestedProgram);
            var all := QueryPage.RunFrom(e, QueryPage.Scope([], MaximumSequence(s.store.events) as real),
                                         Session.Bytes(Entries(render, s.store.events)), 0, 0);
            && HoldsTheLines(judge, s)
            && QueryHistory.AllRows(served) == all.values && all.stop == QueryPage.Finished
            && all.values == QueryMeaning.YieldAll(e, Entries(render, s.store.events))
  {
    hide Runs, StateAt, Follows, Drained, HoldsTheLines, QueryHistory.AllRows, QueryPage.RunFrom, Entries;
    hide Session.Bytes, Session.Highest, MaximumSequence, QueryHistory.EngineFor, QueryMeaning.YieldAll;
    DrainedHoldsTheLines(judge, steps, n);
    LogOfMoment(judge, jaq.classify, render, steps, b, at, n);
    QueryHistory.WalkIsOneRun(jaq, b, served);
  }
}
