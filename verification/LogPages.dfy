/** `logsCommand`: offset paging over the snapshot that the first page fixed. */
module LogPages {
  import opened Common
  import opened EventOrder
  import opened EventLog
  import opened ExternalSort

  /** The authenticated payload of a snapshot cursor. */
  datatype Snapshot = Snapshot(evidenceEpoch: string, sessionId: string, watermark: nat)

  datatype LogsRequest = LogsRequest(hypotheses: seq<string>, limit: nat, offset: nat, snapshot: Option<Snapshot>)

  datatype LogsOutput = LogsOutput(
    records: seq<Event>, hasNext: bool, nextOffset: Option<nat>, hasPrevious: bool, previousOffset: Option<nat>,
    snapshot: Snapshot, validRecords: nat)

  datatype LogsError = CursorScope | InvalidArguments | Daemon(error: PageError)

  function PageOptions(request: LogsRequest): EventPageOptions
  {
    EventPageOptions(
      if request.snapshot.Some? then Some(request.snapshot.value.evidenceEpoch) else None,
      request.hypotheses, request.limit, request.offset,
      if request.snapshot.Some? then Some(request.snapshot.value.watermark) else None)
  }

  /** The answer to a request that the daemon served from `log` in epoch `epoch`. */
  function Answer(c: Collation, log: seq<Line>, epoch: string, sessionId: string, request: LogsRequest): LogsOutput
  {
    var page := PageOf(c, log, epoch, PageOptions(request));
    var hasNext := request.offset + |page.records| < page.totalRecords;
    LogsOutput(
      page.records, hasNext, if hasNext then Some(request.offset + request.limit) else None,
      request.offset > 0, if request.offset > 0 then Some(Max(0, request.offset - request.limit)) else None,
      if request.snapshot.Some? then request.snapshot.value else Snapshot(epoch, sessionId, HighestSequence(log)),
      page.totalRecords)
  }

  method LogsCommand(store: EventPages, sessionId: string, request: LogsRequest)
    returns (r: Result<LogsOutput, LogsError>)
    requires store.Valid()
    modifies store`sortFiles, store.hooks, store.disk
    ensures store.hooks.openReaders == old(store.hooks.openReaders)
    ensures r.Ok? ==> store.session.Some? && Parses(store.log) && request.limit >= 1
    ensures r.Ok? ==> r.value == Answer(store.collate, store.log, store.session.value, sessionId, request)
    ensures r.Ok? ==>
      && (exists page ::
            && PageShows(store.collate, store.log, PageOptions(request), page)
            && page.records == r.value.records && page.totalRecords == r.value.validRecords)
      && (r.value.hasNext <==> request.offset + |r.value.records| < r.value.validRecords)
      && r.value.nextOffset == (if r.value.hasNext then Some(request.offset + request.limit) else None)
      && (request.offset == 0 ==> !r.value.hasPrevious && r.value.previousOffset == None)
      && (request.offset > 0 ==> r.value.hasPrevious)
      && (request.offset >= request.limit ==> r.value.previousOffset == Some(request.offset - request.limit))
    ensures (&& request.limit >= 1 && (request.snapshot.Some? ==> request.snapshot.value.sessionId == sessionId)
             && store.session.Some? && Parses(store.log)
             && (request.snapshot.Some? ==> request.snapshot.value.evidenceEpoch in {"", store.session.value})
             && store.hooks.failOpenAt.None? && store.disk.Clean(old(store.disk.accesses))) ==> r.Ok?
    ensures request.snapshot.Some? && request.snapshot.value.sessionId != sessionId ==> r == Err(CursorScope)
    ensures (request.snapshot.Some? && request.snapshot.value.evidenceEpoch != ""
             && store.session.Some? && request.snapshot.value.evidenceEpoch != store.session.value) ==> r.Err?
  {
    hide PageOf, ChunkCount, Matching, PageShows, Parses, HighestSequence;
    if request.snapshot.Some? && request.snapshot.value.sessionId != sessionId { return Err(CursorScope); }
    if request.limit < 1 { return Err(InvalidArguments); }
    var response := store.ReadPage(PageOptions(request));
    if response.Err? { return Err(Daemon(response.error)); }
    var page := response.value;
    PageWatermark(store.collate, store.log, store.session.value, request);
    var snapshot := if request.snapshot.Some? then request.snapshot.value
                    else Snapshot(page.evidenceEpoch, sessionId, page.watermark);
    var hasPrevious := request.offset > 0;
    var hasNext := request.offset + |page.records| < page.totalRecords;
    return Ok(LogsOutput(
      page.records, hasNext, if hasNext then Some(request.offset + request.limit) else None,
      hasPrevious, if hasPrevious then Some(Max(0, request.offset - request.limit)) else None,
      snapshot, page.totalRecords));
  }

  lemma {:induction false} PageWatermark(c: Collation, log: seq<Line>, epoch: string, request: LogsRequest)
    ensures request.snapshot.None? ==> PageOf(c, log, epoch, PageOptions(request)).watermark == HighestSequence(log)
    ensures PageOf(c, log, epoch, PageOptions(request)).evidenceEpoch == epoch
  {
  }

  // --- chains of pages -----------------------------------------------------------------------

  /** `later` is `earlier` with records appended whose sequences exceed all earlier ones. */
  ghost predicate Grown(earlier: seq<Line>, later: seq<Line>)
  {
    && earlier <= later
    && forall i | |earlier| <= i < |later| :: later[i].Record? ==> later[i].event.sequence > HighestSequence(earlier)
  }

  /** The watermark of the first page hides everything appended after it. */
  lemma {:induction false} WatermarkFreezes(earlier: seq<Line>, later: seq<Line>, hypotheses: seq<string>)
    requires Grown(earlier, later)
    ensures Matching(later, hypotheses, Some(HighestSequence(earlier))) == Matching(earlier, hypotheses, None)
  {
    if later == earlier {
      WatermarkAdmitsAll(earlier, hypotheses, HighestSequence(earlier));
    } else {
      assert later[..|later| - 1][..|earlier|] == earlier;
      WatermarkFreezes(earlier, later[..|later| - 1], hypotheses);
    }
  }

  lemma {:induction false} WatermarkAdmitsAll(log: seq<Line>, hypotheses: seq<string>, watermark: int)
    requires HighestSequence(log) <= watermark
    ensures Matching(log, hypotheses, Some(watermark)) == Matching(log, hypotheses, None)
  {
    if log != [] { WatermarkAdmitsAll(log[..|log| - 1], hypotheses, watermark); }
  }

  /** The offset of page `i`: every next page starts `limit` further on. */
  function OffsetOf(i: nat, limit: nat): nat
  {
    if i == 0 then 0 else OffsetOf(i - 1, limit) + limit
  }

  /** The request for page `i`: the first asks freshly, later ones carry the first answer's snapshot. */
  function PageRequest(hypotheses: seq<string>, limit: nat, i: nat, first: Snapshot): LogsRequest
  {
    LogsRequest(hypotheses, limit, OffsetOf(i, limit), if i == 0 then None else Some(first))
  }

  /** Answers that may all belong to one walk: each from the log as it was when that page was served. */
  ghost predicate Walk(
    c: Collation, epoch: string, sessionId: string, hypotheses: seq<string>, limit: nat,
    logs: seq<seq<Line>>, answers: seq<LogsOutput>)
  {
    && |answers| == |logs| > 0
    && (forall i | 0 <= i < |logs| :: Grown(logs[0], logs[i]))
    && (forall i | 0 <= i < |logs| ::
          answers[i] == Answer(c, logs[i], epoch, sessionId, PageRequest(hypotheses, limit, i, answers[0].snapshot)))
  }

  /** The walk went on exactly as long as an answer announced a next page. */
  ghost predicate FollowedToTheEnd(answers: seq<LogsOutput>)
  {
    forall i | 0 <= i < |answers| :: answers[i].hasNext <==> i < |answers| - 1
  }

  /** Each page is the slice of the first request's sorted snapshot that its offset names. */
  lemma PageIsSnapshotSlice(
    c: Collation, epoch: string, sessionId: string, hypotheses: seq<string>, limit: nat,
    logs: seq<seq<Line>>, answers: seq<LogsOutput>, i: nat)
    requires Walk(c, epoch, sessionId, hypotheses, limit, logs, answers) && i < |logs|
    ensures answers[i].records == Slice(StableSort(c, Matching(logs[0], hypotheses, None)), OffsetOf(i, limit), limit)
    ensures answers[i].validRecords == |Matching(logs[0], hypotheses, None)|
    ensures answers[i].hasNext
       <==> OffsetOf(i, limit) + |answers[i].records| < |StableSort(c, Matching(logs[0], hypotheses, None))|
    ensures answers[i].hasNext ==> answers[i].nextOffset == Some(OffsetOf(i + 1, limit))
    ensures limit >= 1 ==> (answers[i].hasPrevious <==> i > 0)
    ensures i > 0 && limit >= 1 ==> answers[i].previousOffset == Some(OffsetOf(i - 1, limit))
  {
    hide StableSort, Matching, Slice, OffsetOf, Answer, HighestSequence, TalliesOf, PageOf;
    var first := PageRequest(hypotheses, limit, 0, answers[0].snapshot);
    assert answers[0] == Answer(c, logs[0], epoch, sessionId, first);
    AnswerIsSlice(c, logs[0], epoch, sessionId, first);
    if i > 0 {
      var request := PageRequest(hypotheses, limit, i, answers[0].snapshot);
      assert answers[i] == Answer(c, logs[i], epoch, sessionId, request);
      AnswerIsSlice(c, logs[i], epoch, sessionId, request);
      WatermarkFreezes(logs[0], logs[i], hypotheses);
    }
    NextOffset(i, limit);
    if i > 0 { NextOffset(i - 1, limit); }
    StartsAtZero(limit);
  }

  lemma {:induction false} StartsAtZero(limit: nat)
    ensures OffsetOf(0, limit) == 0
  {
  }

  lemma NextOffset(i: nat, limit: nat)
    ensures OffsetOf(i + 1, limit) == OffsetOf(i, limit) + limit
  {
  }

  lemma {:induction false} AnswerIsSlice(
    c: Collation, log: seq<Line>, epoch: string, sessionId: string, request: LogsRequest)
    ensures var matching := Matching(log, request.hypotheses, PageOptions(request).watermark);
            var answer := Answer(c, log, epoch, sessionId, request);
            && answer.records == Slice(StableSort(c, matching), request.offset, request.limit)
            && answer.validRecords == |matching| == |StableSort(c, matching)|
            && (answer.hasNext <==> request.offset + |answer.records| < |StableSort(c, matching)|)
            && (answer.hasNext ==> answer.nextOffset == Some(request.offset + request.limit))
            && (request.snapshot.None? ==> answer.snapshot.watermark == HighestSequence(log))
            && (answer.hasPrevious <==> request.offset > 0)
            && (request.offset > 0 ==> answer.previousOffset == Some(Max(0, request.offset - request.limit)))
  {
    hide StableSort, Matching, Slice, HighestSequence, TalliesOf;
    StableSortLength(c, Matching(log, request.hypotheses, PageOptions(request).watermark));
  }

  /** Consecutive slices of `s` starting at offset zero. */
  ghost predicate ConsecutiveSlices<T>(s: seq<T>, limit: nat, pages: seq<seq<T>>)
  {
    forall i | 0 <= i < |pages| :: pages[i] == Slice(s, OffsetOf(i, limit), limit)
  }

  lemma {:induction false} SlicesConcatenate<T>(s: seq<T>, limit: nat, pages: seq<seq<T>>)
    requires ConsecutiveSlices(s, limit, pages)
    ensures Concat(pages) == s[..Min(OffsetOf(|pages|, limit), |s|)]
  {
    hide Slice;
    if pages != [] {
      var last := |pages| - 1;
      SlicesConcatenate(s, limit, pages[..last]);
      assert pages == pages[..last] + [pages[last]];
      ConcatSnoc(pages[..last], pages[last]);
      NextOffset(last, limit);
      SliceFollows(s, OffsetOf(last, limit), limit);
    } else {
      assert s[..0] == [];
    }
  }

  lemma SliceFollows<T>(s: seq<T>, offset: nat, limit: nat)
    ensures s[..Min(offset, |s|)] + Slice(s, offset, limit) == s[..Min(offset + limit, |s|)]
  {
  }

  /** Slices that announce a successor exactly until the last one cover the whole sequence. */
  lemma {:induction false} SlicesCoverAll<T>(s: seq<T>, limit: nat, pages: seq<seq<T>>)
    requires limit >= 1 && pages != [] && ConsecutiveSlices(s, limit, pages)
    requires forall i | 0 <= i < |pages| :: OffsetOf(i, limit) + |pages[i]| < |s| <==> i < |pages| - 1
    ensures Concat(pages) == s
    ensures forall i | 0 <= i < |pages| - 1 :: |pages[i]| == limit
    ensures |pages| > 1 ==> pages[|pages| - 1] != []
  {
    var last := |pages| - 1;
    SlicesConcatenate(s, limit, pages);
    assert OffsetOf(last, limit) + |pages[last]| >= |s|;
    assert s[..|s|] == s;
    if last > 0 { assert OffsetOf(last - 1, limit) + |pages[last - 1]| < |s|; }
  }

  /** Pages followed to the end, with events arriving in between, are exactly the sorted snapshot of
      the first request; every page but the last is full, and no page is superfluous. */
  lemma {:induction false} PagesAreTheSnapshot(
    c: Collation, epoch: string, sessionId: string, hypotheses: seq<string>, limit: nat,
    logs: seq<seq<Line>>, answers: seq<LogsOutput>, pages: seq<seq<Event>>)
    requires limit >= 1
    requires Walk(c, epoch, sessionId, hypotheses, limit, logs, answers) && FollowedToTheEnd(answers)
    requires |pages| == |answers| && forall i | 0 <= i < |pages| :: pages[i] == answers[i].records
    ensures Concat(pages) == StableSort(c, Matching(logs[0], hypotheses, None))
    ensures Lists(c, Concat(pages), Matching(logs[0], hypotheses, None))
    ensures forall i | 0 <= i < |answers| - 1 :: |answers[i].records| == limit
    ensures |answers| > 1 ==> answers[|answers| - 1].records != []
  {
    assert |answers| == |logs| > 0;
    hide Answer, PageOf, StableSort, Matching, Walk, Concat, OffsetOf, Lists;
    StableSortLists(c, Matching(logs[0], hypotheses, None));
    var sorted := StableSort(c, Matching(logs[0], hypotheses, None));
    forall i | 0 <= i < |pages|
      ensures pages[i] == Slice(sorted, OffsetOf(i, limit), limit)
      ensures OffsetOf(i, limit) + |pages[i]| < |sorted| <==> i < |pages| - 1
    {
      PageIsSnapshotSlice(c, epoch, sessionId, hypotheses, limit, logs, answers, i);
    }
    SlicesCoverAll(sorted, limit, pages);
  }
}
