/** What a page of a session's log is: filter, stable sort, slice, and the counts beside it. */
module EventLog {
  import opened Common
  import opened EventOrder

  /** One line of events.ndjson: empty, a stored event, or text that does not parse. */
  datatype Line = Blank | Record(event: Event) | Garbage

  datatype EventPageOptions = EventPageOptions(
    evidenceEpoch: Option<string>, hypothesisIds: seq<string>, limit: nat, offset: nat, watermark: Option<int>)

  datatype EventPage = EventPage(
    evidenceEpoch: string, records: seq<Event>, recordsByHypothesis: map<string, Tally>, totalRecords: nat,
    watermark: int)

  datatype PageError = SessionMissing | EpochMismatch | LogCorrupt | ReaderOpenFailed | IoFailed

  predicate Parses(log: seq<Line>) { Garbage !in log }

  predicate Matches(e: Event, hypothesisIds: seq<string>, watermark: Option<int>)
  {
    && (watermark.Some? ==> e.sequence <= watermark.value)
    && (|hypothesisIds| > 0 ==> e.hypothesisId in hypothesisIds)
  }

  function Matching(log: seq<Line>, hypothesisIds: seq<string>, watermark: Option<int>): seq<Event>
  {
    if log == [] then []
    else
      var before := Matching(log[..|log| - 1], hypothesisIds, watermark);
      var line := log[|log| - 1];
      if line.Record? && Matches(line.event, hypothesisIds, watermark) then before + [line.event] else before
  }

  /** The largest sequence in the log, or zero. */
  function HighestSequence(log: seq<Line>): nat
  {
    if log == [] then 0
    else
      var before := HighestSequence(log[..|log| - 1]);
      var line := log[|log| - 1];
      if line.Record? then Max(before, line.event.sequence) else before
  }

  function Slice<T>(s: seq<T>, offset: nat, limit: nat): seq<T>
  {
    s[Min(offset, |s|)..Min(offset + limit, |s|)]
  }

  function PageOf(c: Collation, log: seq<Line>, epoch: string, options: EventPageOptions): EventPage
  {
    var matching := Matching(log, options.hypothesisIds, options.watermark);
    EventPage(
      epoch, Slice(StableSort(c, matching), options.offset, options.limit), TalliesOf(matching), |matching|,
      if options.watermark.Some? then options.watermark.value else HighestSequence(log))
  }

  // --- what is listed ----------------------------------------------------------------------------------

  /** `events` stand in the log at the places `at`, and these are all its records with a sequence number up to the
      watermark and one of the hypotheses, or any when none is asked for. */
  ghost predicate Picked(
    log: seq<Line>, hypothesisIds: seq<string>, watermark: Option<int>, at: seq<nat>, events: seq<Event>)
  {
    && |at| == |events| && (forall j, k | 0 <= j < k < |at| :: at[j] < at[k])
    && (forall k | 0 <= k < |at| :: at[k] < |log| && log[at[k]] == Record(events[k]))
    && forall i | 0 <= i < |log| ::
         i in at <==>
           && log[i].Record? && (watermark.None? || log[i].event.sequence <= watermark.value)
           && (hypothesisIds == [] || log[i].event.hypothesisId in hypothesisIds)
  }

  lemma PickedSnoc(
    log: seq<Line>, hypothesisIds: seq<string>, watermark: Option<int>, at: seq<nat>, events: seq<Event>, line: Line)
    requires Picked(log, hypothesisIds, watermark, at, events)
    ensures if line.Record? && Matches(line.event, hypothesisIds, watermark)
            then Picked(log + [line], hypothesisIds, watermark, at + [|log|], events + [line.event])
            else Picked(log + [line], hypothesisIds, watermark, at, events)
  {
    var longer := log + [line];
    var more := at + [|log|];
    forall i | 0 <= i < |longer| ensures i in more <==> i in at || i == |log| {
      if i in at { var k :| 0 <= k < |at| && at[k] == i; assert more[k] == i; }
      if i == |log| { assert more[|at|] == i; }
    }
    assert |log| !in at;
    forall i | 0 <= i < |log| ensures longer[i] == log[i] {}
  }

  lemma {:induction false} MatchingIsPicked(log: seq<Line>, hypothesisIds: seq<string>, watermark: Option<int>)
    returns (at: seq<nat>)
    ensures Picked(log, hypothesisIds, watermark, at, Matching(log, hypothesisIds, watermark))
  {
    at := [];
    if log != [] {
      var front, line := log[..|log| - 1], log[|log| - 1];
      at := MatchingIsPicked(front, hypothesisIds, watermark);
      PickedSnoc(front, hypothesisIds, watermark, at, Matching(front, hypothesisIds, watermark), line);
      hide Picked;
      assert log == front + [line];
      if line.Record? && Matches(line.event, hypothesisIds, watermark) { at := at + [|front|]; }
    }
  }

  lemma {:induction false} HighestIsLargest(log: seq<Line>)
    ensures forall i | 0 <= i < |log| && log[i].Record? :: log[i].event.sequence <= HighestSequence(log)
    ensures HighestSequence(log) == 0
         || exists i | 0 <= i < |log| :: log[i].Record? && log[i].event.sequence == HighestSequence(log)
  {
    if log != [] {
      var front := log[..|log| - 1];
      HighestIsLargest(front);
      if i :| 0 <= i < |front| && front[i].Record? && front[i].event.sequence == HighestSequence(front) {
        assert log[i] == front[i];
      }
    }
  }

  // --- the per-hypothesis counts -------------------------------------------------------------

  /** Names an empty JavaScript object already answers to. */
  const INHERITED: set<string> := {
    "constructor", "hasOwnProperty", "isPrototypeOf", "propertyIsEnumerable", "toLocaleString", "toString",
    "valueOf", "__defineGetter__", "__defineSetter__", "__lookupGetter__", "__lookupSetter__", "__proto__"
  }

  /** A value of the counting object: a number, or the text of an inherited member followed by ones. */
  datatype Tally = Count(n: nat) | Text(ones: nat)

  /** `counts[h] = (counts[h] ?? 0) + 1` on an object created by `{}`. */
  function Bump(tallies: map<string, Tally>, h: string): map<string, Tally>
  {
    if h == "__proto__" then tallies
    else if h in tallies then
      tallies[h := if tallies[h].Count? then Count(tallies[h].n + 1) else Text(tallies[h].ones + 1)]
    else if h in INHERITED then tallies[h := Text(1)]
    else tallies[h := Count(1)]
  }

  function TalliesOf(events: seq<Event>): map<string, Tally>
  {
    if events == [] then map[] else Bump(TalliesOf(events[..|events| - 1]), events[|events| - 1].hypothesisId)
  }

  function CountOf(events: seq<Event>, h: string): nat
  {
    if events == [] then 0
    else CountOf(events[..|events| - 1], h) + if events[|events| - 1].hypothesisId == h then 1 else 0
  }

  /** The entry for `h` is exactly the number of events that carry `h`, and absent when there is none. */
  predicate CountedRight(tallies: map<string, Tally>, events: seq<Event>, h: string)
  {
    if CountOf(events, h) == 0 then h !in tallies else h in tallies && tallies[h] == Count(CountOf(events, h))
  }

  lemma {:induction false} TalliesByName(events: seq<Event>, h: string)
    ensures h !in INHERITED ==> CountedRight(TalliesOf(events), events, h)
    ensures h in INHERITED && h in TalliesOf(events) ==> TalliesOf(events)[h].Text?
  {
    if events != [] { TalliesByName(events[..|events| - 1], h); }
  }

  lemma {:induction false} CountOfMember(events: seq<Event>, k: nat)
    requires k < |events|
    ensures CountOf(events, events[k].hypothesisId) > 0
  {
    if k < |events| - 1 { CountOfMember(events[..|events| - 1], k); }
  }

  lemma {:induction false} CountOfNobody(events: seq<Event>, h: string)
    requires forall e | e in events :: e.hypothesisId != h
    ensures CountOf(events, h) == 0 && h !in TalliesOf(events)
  {
    if events != [] { CountOfNobody(events[..|events| - 1], h); }
  }

  predicate OnlyOwnNames(events: seq<Event>)
  {
    forall e | e in events :: e.hypothesisId !in INHERITED
  }

  ghost predicate AllCountedRight(events: seq<Event>)
  {
    forall h :: CountedRight(TalliesOf(events), events, h)
  }

  /** The counts are right exactly when no listed event is labelled with a name every object inherits. */
  lemma TalliesRightIff(events: seq<Event>)
    ensures AllCountedRight(events) <==> OnlyOwnNames(events)
    ensures OnlyOwnNames(events) <==>
      forall e | e in events ::
        e.hypothesisId !in {
          "constructor", "hasOwnProperty", "isPrototypeOf", "propertyIsEnumerable", "toLocaleString", "toString",
          "valueOf", "__defineGetter__", "__defineSetter__", "__lookupGetter__", "__lookupSetter__", "__proto__"}
  {
    if OnlyOwnNames(events) {
      forall h ensures CountedRight(TalliesOf(events), events, h) {
        TalliesByName(events, h);
        if h in INHERITED { CountOfNobody(events, h); }
      }
    } else {
      var e :| e in events && e.hypothesisId in INHERITED;
      var k :| 0 <= k < |events| && events[k] == e;
      TalliesByName(events, e.hypothesisId);
      CountOfMember(events, k);
      assert !CountedRight(TalliesOf(events), events, e.hypothesisId);
    }
  }

  /** The watermark of a page: the one asked for, or the largest number in the log. */
  ghost predicate Watermarked(log: seq<Line>, asked: Option<int>, watermark: int)
  {
    match asked
    case Some(w) => watermark == w
    case None =>
      && (forall i | 0 <= i < |log| && log[i].Record? :: log[i].event.sequence <= watermark)
      && (watermark == 0 || exists i | 0 <= i < |log| :: log[i].Record? && log[i].event.sequence == watermark)
  }

  /** Up to `limit` events of a list from number `offset` on. */
  ghost predicate Cut(listed: seq<Event>, offset: nat, limit: nat, records: seq<Event>)
  {
    && |records| == Max(0, Min(limit, |listed| - offset))
    && forall k | 0 <= k < |records| :: offset + k < |listed| && records[k] == listed[offset + k]
  }

  ghost predicate Counted(counts: map<string, Tally>, events: seq<Event>)
  {
    OnlyOwnNames(events) ==> forall h :: CountedRight(counts, events, h)
  }

  /** The page lists the wanted records of the log from number `offset` on, `limit` at most, and counts all of them. */
  ghost predicate PageShows(c: Collation, log: seq<Line>, options: EventPageOptions, page: EventPage)
  {
    exists at, events, listed ::
      && Picked(log, options.hypothesisIds, options.watermark, at, events) && Lists(c, listed, events)
      && page.totalRecords == |listed| == |events| && Cut(listed, options.offset, options.limit, page.records)
      && Watermarked(log, options.watermark, page.watermark) && Counted(page.recordsByHypothesis, events)
  }

  lemma PageOfShows(c: Collation, log: seq<Line>, epoch: string, options: EventPageOptions)
    ensures PageShows(c, log, options, PageOf(c, log, epoch, options))
  {
    var events := Matching(log, options.hypothesisIds, options.watermark);
    var at := MatchingIsPicked(log, options.hypothesisIds, options.watermark);
    StableSortLists(c, events);
    StableSortLength(c, events);
    HighestIsLargest(log);
    TalliesRightIff(events);
    SliceCuts(StableSort(c, events), options.offset, options.limit);
    hide Matching, StableSort, Picked, Lists, TalliesOf, HighestSequence, OnlyOwnNames, CountedRight, Slice, Cut;
    assert Watermarked(log, options.watermark, PageOf(c, log, epoch, options).watermark);
    assert Counted(TalliesOf(events), events);
    hide Watermarked, Counted;
    assert Picked(log, options.hypothesisIds, options.watermark, at, events) && Lists(c, StableSort(c, events), events);
  }

  lemma SliceCuts(listed: seq<Event>, offset: nat, limit: nat)
    ensures Cut(listed, offset, limit, Slice(listed, offset, limit))
  {
  }

  /** One event labelled "constructor" is enough: its count is not a number. One labelled "__proto__" is not counted
      at all. */
  lemma TalliesWrongExample(e: Event)
    requires e.hypothesisId == "constructor" || e.hypothesisId == "__proto__"
    ensures TalliesOf([e]) == if e.hypothesisId == "constructor" then map["constructor" := Text(1)] else map[]
    ensures !CountedRight(TalliesOf([e]), [e], e.hypothesisId)
  {
  }

  /** The sum of all counts. */
  ghost function Total(tallies: map<string, Tally>): nat
    decreases |tallies|
  {
    if tallies == map[] then 0
    else
      var h :| h in tallies;
      (if tallies[h].Count? then tallies[h].n else 0) + Total(tallies - {h})
  }

  lemma {:induction false} TotalRemove(tallies: map<string, Tally>, h: string)
    requires h in tallies
    ensures Total(tallies) == (if tallies[h].Count? then tallies[h].n else 0) + Total(tallies - {h})
    decreases |tallies|
  {
    var g :| g in tallies && Total(tallies) == (if tallies[g].Count? then tallies[g].n else 0) + Total(tallies - {g});
    if g != h {
      TotalRemove(tallies - {g}, h);
      TotalRemove(tallies - {h}, g);
      assert tallies - {g} - {h} == tallies - {h} - {g};
    }
  }

  /** Without inherited names the counts sum to the number of listed events. */
  lemma {:induction false} TalliesSum(events: seq<Event>)
    requires OnlyOwnNames(events)
    ensures Total(TalliesOf(events)) == |events|
  {
    if events != [] {
      var front, h := events[..|events| - 1], events[|events| - 1].hypothesisId;
      TalliesSum(front);
      TalliesByName(front, h);
      var before, after := TalliesOf(front), TalliesOf(events);
      assert after - {h} == before - {h};
      TotalRemove(after, h);
      if h in before { TotalRemove(before, h); } else { assert before - {h} == before; }
    }
  }
}
