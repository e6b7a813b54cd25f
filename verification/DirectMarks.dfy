/** What direct records leave behind, and what it means that a store holds the traces of the first ones. */
module DirectMarks {
  import opened Common
  import opened DirectAppend
  import opened Ingestion
  import opened IngestionMachine

  /** What a direct record leaves behind, apart from its sequence number. */
  datatype Mark = EventMark(id: Id, body: string) | DiagnosticMark(id: Id, reason: Reason)

  function MarkOf(judge: Judge, item: Item): Mark
  {
    if Good(judge, item) then EventMark(item.id, judge(item.content).body)
    else DiagnosticMark(item.id, ReasonFor(judge, item))
  }

  /** The marks the records should leave in the event log (`events`) or among the diagnostics. */
  function Expected(judge: Judge, items: seq<Item>, events: bool): seq<Mark>
  {
    if items == [] then []
    else
      var m := MarkOf(judge, items[|items| - 1]);
      Expected(judge, items[..|items| - 1], events) + (if m.EventMark? == events then [m] else [])
  }

  /** The marks of direct records in the event log. */
  function EventMarks(events: seq<Stored>): seq<Mark>
  {
    if events == [] then []
    else
      var e := events[|events| - 1];
      EventMarks(events[..|events| - 1]) + (if e.id.Direct? then [EventMark(e.id, e.body)] else [])
  }

  function DiagnosticMarks(diagnostics: seq<Diagnostic>): seq<Mark>
  {
    if diagnostics == [] then []
    else
      var d := diagnostics[|diagnostics| - 1];
      DiagnosticMarks(diagnostics[..|diagnostics| - 1])
      + (if d.id.Direct? then [DiagnosticMark(d.id, d.reason)] else [])
  }

  function Marks(store: Store, events: bool): seq<Mark>
  {
    if events then EventMarks(store.events) else DiagnosticMarks(store.diagnostics)
  }

  /** What is stored is what a prefix of the records should leave, and covers at least `front`. */
  ghost predicate Between(judge: Judge, front: seq<Item>, store: Store, all: seq<Item>)
  {
    forall events: bool ::
      Expected(judge, front, events) <= Marks(store, events) && Marks(store, events) <= Expected(judge, all, events)
  }

  function MarkIds(ms: seq<Mark>): set<Id> { set m | m in ms :: m.id }

  function ItemIds(items: seq<Item>): set<Id> { set i | i in items :: i.id }

  function Records(file: seq<byte>, cut: nat): seq<Item>
    requires cut <= |file|
  {
    ItemsOf(RecordsFrom(file[..cut], 0))
  }

  ghost predicate Distinct(ms: seq<Mark>) { forall i, j | 0 <= i < j < |ms| :: ms[i].id != ms[j].id }

  ghost predicate DistinctIds(items: seq<Item>) { forall i, j | 0 <= i < j < |items| :: items[i].id != items[j].id }

  // --- facts about marks ---------------------------------------------------------------------------------

  lemma {:induction false} ExpectedSnoc(judge: Judge, items: seq<Item>, item: Item, events: bool)
    ensures Expected(judge, items + [item], events)
         == Expected(judge, items, events)
            + (if MarkOf(judge, item).EventMark? == events then [MarkOf(judge, item)] else [])
  {
  }

  lemma {:induction false} ExpectedPrefix(judge: Judge, front: seq<Item>, all: seq<Item>, events: bool)
    requires front <= all
    ensures Expected(judge, front, events) <= Expected(judge, all, events)
    decreases |all|
  {
    if front != all {
      ExpectedPrefix(judge, front, all[..|all| - 1], events);
    }
  }

  lemma DistinctSnoc(ms: seq<Mark>, m: Mark)
    requires Distinct(ms) && m.id !in MarkIds(ms)
    ensures Distinct(ms + [m])
  {
  }

  lemma {:induction false} ExpectedIds(judge: Judge, items: seq<Item>, events: bool)
    requires DistinctIds(items)
    ensures Distinct(Expected(judge, items, events))
    ensures MarkIds(Expected(judge, items, events)) <= ItemIds(items)
  {
    if items != [] {
      var front, last := items[..|items| - 1], items[|items| - 1];
      ExpectedIds(judge, front, events);
      assert last.id !in ItemIds(front);
      assert items == front + [last];
      assert ItemIds(items) == ItemIds(front) + {last.id};
      var before := Expected(judge, front, events);
      if MarkOf(judge, last).EventMark? == events {
        DistinctSnoc(before, MarkOf(judge, last));
      } else {
        assert before + [] == before;
      }
    }
  }

  lemma {:induction false} DirectEventIsMarked(events: seq<Stored>, e: Stored)
    requires e in events && e.id.Direct?
    ensures EventMark(e.id, e.body) in EventMarks(events)
  {
    var front, last := events[..|events| - 1], events[|events| - 1];
    assert events == front + [last];
    if e in front { DirectEventIsMarked(front, e); }
  }

  lemma {:induction false} DirectDiagnosticIsMarked(diagnostics: seq<Diagnostic>, d: Diagnostic)
    requires d in diagnostics && d.id.Direct?
    ensures DiagnosticMark(d.id, d.reason) in DiagnosticMarks(diagnostics)
  {
    var front, last := diagnostics[..|diagnostics| - 1], diagnostics[|diagnostics| - 1];
    assert diagnostics == front + [last];
    if d in front { DirectDiagnosticIsMarked(front, d); }
  }

  // --- the order of marks ------------------------------------------------------------------------------------

  /** Marks of direct records in the order of the file. */
  ghost predicate Ascend(ms: seq<Mark>)
  {
    (forall m | m in ms :: m.id.Direct?) && forall j, k | 0 <= j < k < |ms| :: ms[j].id.start < ms[k].id.start
  }

  ghost predicate ItemsAscend(items: seq<Item>)
  {
    (forall i | i in items :: i.id.Direct?)
    && forall j, k | 0 <= j < k < |items| :: items[j].id.start < items[k].id.start
  }

  lemma AscendSnoc(ms: seq<Mark>, m: Mark)
    requires Ascend(ms) && m.id.Direct? && forall x | x in ms :: x.id.start < m.id.start
    ensures Ascend(ms + [m])
  {
  }

  lemma {:induction false} ExpectedAscends(judge: Judge, items: seq<Item>, events: bool)
    requires ItemsAscend(items)
    ensures Ascend(Expected(judge, items, events))
  {
    if items != [] {
      hide MarkOf;
      var front, last := items[..|items| - 1], items[|items| - 1];
      ExpectedAscends(judge, front, events);
      ExpectedIds(judge, front, events);
      MarkHasTheId(judge, last);
      var before := Expected(judge, front, events);
      forall m | m in before ensures m.id.start < last.id.start {
        assert m.id in MarkIds(before);
        var i :| 0 <= i < |front| && front[i].id == m.id;
        assert items[i] == front[i];
      }
      if MarkOf(judge, last).EventMark? == events { AscendSnoc(before, MarkOf(judge, last)); }
      else { assert before + [] == before; }
    }
  }

  lemma MarkHasTheId(judge: Judge, item: Item)
    ensures MarkOf(judge, item).id == item.id
  {
  }

  /** The events of direct records stand in the order of their lines. */
  ghost predicate EventsAscend(events: seq<Stored>)
  {
    forall j, k | 0 <= j < k < |events| && events[j].id.Direct? && events[k].id.Direct? ::
      events[j].id.start < events[k].id.start
  }

  ghost predicate DiagnosticsAscend(diagnostics: seq<Diagnostic>)
  {
    forall j, k | 0 <= j < k < |diagnostics| && diagnostics[j].id.Direct? && diagnostics[k].id.Direct? ::
      diagnostics[j].id.start < diagnostics[k].id.start
  }

  lemma {:induction false} MarkedEventsAscend(events: seq<Stored>)
    requires Ascend(EventMarks(events))
    ensures EventsAscend(events)
  {
    if events != [] {
      var front, last := events[..|events| - 1], events[|events| - 1];
      var before, after := EventMarks(front), EventMarks(events);
      assert forall k | 0 <= k < |before| :: after[k] == before[k];
      MarkedEventsAscend(front);
      if last.id.Direct? {
        forall j | 0 <= j < |front| && front[j].id.Direct? ensures front[j].id.start < last.id.start {
          DirectEventIsMarked(front, front[j]);
          var k :| 0 <= k < |before| && before[k].id == front[j].id;
          assert after[k].id.start < after[|before|].id.start;
        }
      }
    }
  }

  lemma {:induction false} MarkedDiagnosticsAscend(diagnostics: seq<Diagnostic>)
    requires Ascend(DiagnosticMarks(diagnostics))
    ensures DiagnosticsAscend(diagnostics)
  {
    if diagnostics != [] {
      var front, last := diagnostics[..|diagnostics| - 1], diagnostics[|diagnostics| - 1];
      var before, after := DiagnosticMarks(front), DiagnosticMarks(diagnostics);
      assert forall k | 0 <= k < |before| :: after[k] == before[k];
      MarkedDiagnosticsAscend(front);
      if last.id.Direct? {
        forall j | 0 <= j < |front| && front[j].id.Direct? ensures front[j].id.start < last.id.start {
          DirectDiagnosticIsMarked(front, front[j]);
          var k :| 0 <= k < |before| && before[k].id == front[j].id;
          assert after[k].id.start < after[|before|].id.start;
        }
      }
    }
  }

  /** A prefix of ascending marks holds everything that belongs in front of what it holds. */
  lemma NothingLeftOut(part: seq<Mark>, all: seq<Mark>, earlier: Mark, later: Mark)
    requires part <= all && Ascend(all) && earlier in all && later in part && earlier.id.start < later.id.start
    ensures earlier in part
  {
    var j :| 0 <= j < |all| && all[j] == earlier;
    var k :| 0 <= k < |part| && part[k] == later;
    assert all[k] == later;
  }

  lemma RecordsAscend(file: seq<byte>, cut: nat)
    requires cut <= |file|
    ensures ItemsAscend(Records(file, cut))
  {
    StartsIncrease(file[..cut], 0);
    hide RecordsFrom;
  }

  lemma {:induction false} KnownEventIsMarked(events: seq<Stored>, id: Id)
    requires id.Direct?
    ensures id in EventIds(events) <==> id in MarkIds(EventMarks(events))
  {
    if events != [] {
      var front, last := events[..|events| - 1], events[|events| - 1];
      KnownEventIsMarked(front, id);
      assert events == front + [last];
    }
  }

  lemma {:induction false} KnownDiagnosticIsMarked(diagnostics: seq<Diagnostic>, id: Id)
    requires id.Direct?
    ensures id in DiagnosticIds(diagnostics) <==> id in MarkIds(DiagnosticMarks(diagnostics))
  {
    if diagnostics != [] {
      var front, last := diagnostics[..|diagnostics| - 1], diagnostics[|diagnostics| - 1];
      KnownDiagnosticIsMarked(front, id);
      assert diagnostics == front + [last];
    }
  }

  /** The next mark is already there, or exactly the marks before it are. */
  lemma NextMark(front: seq<Mark>, marks: seq<Mark>, all: seq<Mark>, m: Mark)
    requires front + [m] <= all && Distinct(all) && front <= marks && marks <= all
    ensures m.id in MarkIds(marks) ==> front + [m] <= marks
    ensures m.id !in MarkIds(marks) ==> marks == front
  {
    assert all[|front|] == m;
    if |marks| > |front| { assert marks[|front|] == m; }
    if m.id in MarkIds(marks) {
      var other :| other in marks && other.id == m.id;
      var k :| 0 <= k < |marks| && marks[k] == other;
      assert all[k].id == m.id;
      assert k == |front|;
    }
  }

  /** A record is taken care of: either its mark was there, or it has been put behind the marks before it. */
  lemma Advance(judge: Judge, front: seq<Item>, item: Item, before: Store, after: Store, all: seq<Item>)
    requires front + [item] <= all && DistinctIds(all) && item.id.Direct?
    requires Between(judge, front, before, all)
    requires var events := Good(judge, item);
             && Marks(after, !events) == Marks(before, !events)
             && Marks(after, events)
                == Marks(before, events)
                   + (if item.id in MarkIds(Marks(before, events)) then [] else [MarkOf(judge, item)])
    ensures Between(judge, front + [item], after, all)
    ensures forall events: bool :: Marks(before, events) <= Marks(after, events)
  {
    hide Expected, Marks, Distinct, DistinctIds, MarkIds;
    var m := MarkOf(judge, item);
    forall events: bool
      ensures Expected(judge, front + [item], events) <= Marks(after, events)
      ensures Marks(after, events) <= Expected(judge, all, events)
    {
      ExpectedSnoc(judge, front, item, events);
      ExpectedPrefix(judge, front + [item], all, events);
      ExpectedIds(judge, all, events);
      assert Expected(judge, front, events) <= Marks(before, events);
      if m.EventMark? == events {
        NextMark(Expected(judge, front, events), Marks(before, events), Expected(judge, all, events), m);
      }
    }
  }

  /** What was covered stays covered when marks are only added. */
  lemma StillBetween(judge: Judge, front: seq<Item>, longer: seq<Item>, before: Store, after: Store, all: seq<Item>)
    requires Between(judge, front, before, all) && Between(judge, longer, after, all)
    requires forall events: bool :: Marks(before, events) <= Marks(after, events)
    ensures Between(judge, front, after, all)
  {
  }

  lemma {:induction false} Nothing(judge: Judge, store: Store, all: seq<Item>)
    requires forall events: bool :: Marks(store, events) <= Expected(judge, all, events)
    ensures Between(judge, [], store, all)
  {
  }

  // --- facts about records as items ------------------------------------------------------------------------

  lemma RecordsDistinct(file: seq<byte>, cut: nat)
    requires cut <= |file|
    ensures DistinctIds(Records(file, cut))
  {
    var rs := RecordsFrom(file[..cut], 0);
    StartsIncrease(file[..cut], 0);
    forall i, j | 0 <= i < j < |rs| ensures ItemOf(rs[i]).id != ItemOf(rs[j]).id {
      assert rs[i].start < rs[j].start;
    }
  }

  lemma ItemsOfConcat(a: seq<Rec>, b: seq<Rec>)
    ensures ItemsOf(a + b) == ItemsOf(a) + ItemsOf(b)
  {
  }

  /** The records up to a boundary are the first ones of the whole file. */
  lemma {:induction false} RecordsPrefix(file: seq<byte>, cut: nat)
    requires cut <= |file| && Boundary(file, cut)
    ensures Records(file, cut) <= Records(file, |file|)
    ensures Records(file, |file|) == Records(file, cut) + ItemsOf(RecordsFrom(file, cut))
  {
    hide RecordsFrom, ItemsOf;
    assert file[..|file|] == file;
    RecordsSplit(file, 0, cut);
    ItemsOfConcat(RecordsFrom(file[..cut], 0), RecordsFrom(file, cut));
  }

  /** The observer's window holds the records between the two boundaries. */
  lemma WindowRecords(file: seq<byte>, offset: nat, observed: seq<Observation>, written: nat)
    requires Tick(file, offset, observed, Some(written)) && offset <= |file| && Boundary(file, offset)
    ensures written <= |file| && Boundary(file, written)
    ensures Records(file, written) == Records(file, offset) + ItemsFrom(observed)
  {
    hide RecordsFrom, ItemsOf;
    var done :| RecordsFrom(file, offset) == done + RecordsFrom(file, written) && observed == DescribedAll(done);
    RecordsSplit(file, 0, offset);
    RecordsSplit(file, 0, written);
    var front, rest := RecordsFrom(file[..offset], 0), RecordsFrom(file, written);
    assert RecordsFrom(file[..written], 0) + rest == (front + done) + rest;
    Cancel(RecordsFrom(file[..written], 0), front + done, rest);
    ItemsOfConcat(front, done);
    DescribedItems(done);
  }

  lemma Cancel<T>(a: seq<T>, b: seq<T>, rest: seq<T>)
    requires a + rest == b + rest
    ensures a == b
  {
    assert |a| == |b|;
    assert a == (a + rest)[..|a|];
  }

  lemma DescribedItems(done: seq<Rec>)
    ensures ItemsFrom(DescribedAll(done)) == ItemsOf(done)
  {
  }
}
