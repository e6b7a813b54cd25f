/** Runs in which a promise of ingestion is broken, one for each way it can happen. */
module IngestionExamples {
  import opened Common
  import opened Lines
  import opened DirectAppend
  import opened Ingestion
  import opened IngestionMachine
  import opened IngestionInvariants
  import opened ExactlyOnce
  import opened DirectMarks
  import opened DirectIngestion

  /** A record that becomes an event. */
  predicate Fine(judge: Judge, content: seq<byte>)
  {
    |content| <= MAX_INGESTION_RECORD_BYTES && judge(content).Valid?
  }

  /** A posted record, and what it leaves when the two files can be written or not. */
  lemma Posted(judge: Judge, s: State, content: seq<byte>, disk: Disk) returns (steps: seq<Step>)
    requires Fine(judge, content) && s.work.Idle? && Random(s.random) !in s.store.KnownEvents()
    ensures Runs(judge, s, steps)
    ensures var after := After(judge, s, steps); var number := s.store.Current() + 1; var verdict := judge(content);
            && after == s.(store := after.store, random := after.random) && after.random > s.random
            && after.store.counter == Some(number)
            && (!disk.events ==> after.store == Numbered(s.store))
            && (disk.events ==>
                  && after.store.events
                     == s.store.events + [Stored(Random(s.random), number, verdict.body, verdict.redacts)]
                  && (!disk.diagnostics || !verdict.redacts ==> after.store.diagnostics == s.store.diagnostics)
                  && (!verdict.redacts ==> after.store.eventIds == Some(s.store.KnownEvents() + {Random(s.random)})))
  {
    hide Runs, After, MaximumSequence, Unseen;
    steps := PostIsARun(judge, s, content, s.random, disk);
  }

  /** An append fails and the next record is numbered 2 in an empty log. */
  lemma FailedAppendLeavesAGap(judge: Judge, content: seq<byte>) returns (steps: seq<Step>)
    requires Fine(judge, content) && !judge(content).redacts
    ensures Runs(judge, INITIAL, steps)
    ensures var events := After(judge, INITIAL, steps).store.events; |events| == 1 && events[0].sequence == 2
  {
    hide Runs, After;
    var first := Posted(judge, INITIAL, content, Disk(false, true));
    var second := Posted(judge, After(judge, INITIAL, first), content, Disk(true, true));
    RunsAppend(judge, INITIAL, first, second);
    steps := first + second;
  }

  /** A reset clears the log and fails on the cursor file, and the next record is numbered 2 in an empty log. */
  lemma FailedResetLeavesAGap(judge: Judge, content: seq<byte>) returns (steps: seq<Step>)
    requires Fine(judge, content) && !judge(content).redacts
    ensures Runs(judge, INITIAL, steps)
    ensures var events := After(judge, INITIAL, steps).store.events; |events| == 1 && events[0].sequence == 2
  {
    hide Runs, After;
    var first := Posted(judge, INITIAL, content, Disk(true, true));
    var s := After(judge, INITIAL, first);
    var reset := ResetFails({Cursor}, {}, false);
    OneStep(judge, s, reset);
    RunsAppend(judge, INITIAL, first, [reset]);
    var second := Posted(judge, Apply(judge, s, reset), content, Disk(true, true));
    RunsAppend(judge, INITIAL, first + [reset], second);
    steps := first + [reset] + second;
  }

  /** The diagnostics cannot be written: a redacted event is stored and never reported. */
  lemma ReportIsLost(judge: Judge, content: seq<byte>) returns (steps: seq<Step>)
    requires Fine(judge, content) && judge(content).redacts
    ensures Runs(judge, INITIAL, steps) && After(judge, INITIAL, steps).work.Idle?
    ensures !After(judge, INITIAL, steps).damaged
    ensures var store := After(judge, INITIAL, steps).store;
            |store.events| == 1 && store.events[0].redacted && store.diagnostics == []
  {
    hide Runs, After;
    steps := Posted(judge, INITIAL, content, Disk(true, false));
  }

  /** A reset clears the log but neither the incoming file nor the cursor: the line behind the cursor has lost its
      event for good, although nothing is left to drain. */
  lemma FailedResetLosesALine(judge: Judge, content: seq<byte>) returns (steps: seq<Step>)
    requires Fine(judge, content) && content != [] && LF !in content && !judge(content).redacts
    ensures Runs(judge, INITIAL, steps)
    ensures var s := After(judge, INITIAL, steps);
            Drained(s) && s.damaged && IsLine(s.incoming, Rec(0, content)) && s.store.events == []
  {
    hide Runs, After, Tick, RecordsFrom, DescribedAll, IngestedAll, Harmless;
    var file, observed := content + [LF], [Described(Rec(0, content))];
    OneStep(judge, INITIAL, Append(file));
    var s := Apply(judge, INITIAL, Append(file));
    OneLineTick(file, content);
    assert s.incoming == file;
    var tick := TickIsARun(judge, s, observed, |file|, 0, k => Disk(true, true));
    RunsAppend(judge, INITIAL, [Append(file)], tick);
    var drained := After(judge, s, tick);
    CursorPastALine(drained, file);
    var reset := ResetFails({Incoming, Cursor}, {}, false);
    OneStep(judge, drained, reset);
    RunsAppend(judge, INITIAL, [Append(file)] + tick, [reset]);
    steps := [Append(file)] + tick + [reset];
  }

  /** A clearing outlives its reset and the next one, which succeeds, and lands after a record has been posted: the
      record's event is gone and its identifier still remembered. */
  lemma LateClearingLeavesAnId(judge: Judge, content: seq<byte>) returns (steps: seq<Step>)
    requires Fine(judge, content) && !judge(content).redacts
    ensures Runs(judge, INITIAL, steps)
    ensures var s := After(judge, INITIAL, steps);
            s.store.events == [] && s.store.eventIds == Some({Random(0)}) && s.damaged
  {
    hide Runs, After, Blank;
    var first, s := RetriedReset(judge);
    var post := Posted(judge, s, content, Disk(true, true));
    var stored := After(judge, s, post);
    assert {} + {Random(0)} == {Random(0)};
    LandsOnARecord(judge, stored);
    OneStep(judge, stored, Land(Events));
    RunsAppend(judge, INITIAL, first, post);
    RunsAppend(judge, INITIAL, first + post, [Land(Events)]);
    steps := first + post + [Land(Events)];
  }

  /** A reset fails with the clearing of the log still running, and is tried again. */
  lemma {:induction false} RetriedReset(judge: Judge) returns (steps: seq<Step>, s: State)
    ensures Runs(judge, INITIAL, steps) && s == After(judge, INITIAL, steps)
    ensures s == INITIAL.(cursor := Offset(0), store := EMPTY, pending := multiset{Events})
  {
    hide CursorAtStart;
    steps := [ResetFails({Events}, {Events}, false), Reset];
    TwoSteps(judge, INITIAL, steps[0], Reset);
    s := After(judge, INITIAL, steps);
  }

  lemma LandsOnARecord(judge: Judge, s: State)
    requires Enabled(judge, s, Land(Events)) && s.store.events != [] && s.store.KnownEvents() != {}
    ensures var after := Apply(judge, s, Land(Events));
            after.store == s.store.(events := []) && (s.store.eventIds.Some? ==> after.damaged)
  {
    hide CursorAtStart;
  }

  lemma {:induction false} CursorPastALine(s: State, file: seq<byte>)
    requires s.incoming == file && s.cursor == Offset(|file|) && RecordsFrom(file, 0) != []
    ensures !Harmless(s, {Incoming, Cursor})
  {
    hide RecordsFrom;
    assert file[..|file|] == file;
  }

  lemma {:induction false} OneLineTick(file: seq<byte>, content: seq<byte>)
    requires content != [] && LF !in content && file == content + [LF]
    ensures Tick(file, 0, [Described(Rec(0, content))], Some(|file|)) && IsLine(file, Rec(0, content))
    ensures RecordsFrom(file, 0) != []
  {
    assert forall i | 0 <= i < |content| :: file[i] == content[i];
    assert file[0..|content|] == content;
    FirstRecord(file, 0, |content|);
    assert RecordsFrom(file, |file|) == [];
    hide RecordsFrom;
    assert DescribedAll([Rec(0, content)]) == [Described(Rec(0, content))];
    assert RecordsFrom(file, 0) == [Rec(0, content)] + RecordsFrom(file, |file|);
  }
}
