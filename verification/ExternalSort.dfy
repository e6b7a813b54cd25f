/** `EventStore.readPage`: sorted chunks, 32-way merge passes and an early-stopping merged page. */
module ExternalSort {
  import opened Common
  import opened EventOrder
  import opened Merging
  import opened EventLog
  import opened Faults

  const MERGE_FAN_IN: nat := 32

  /** Names in the directory of one sort operation; both kinds draw from one counter. */
  datatype FileId = Chunk(number: nat) | Merge(number: nat)

  type Files = map<FileId, seq<Event>>

  /** Counts readers as they open and close, and can make one open fail. */
  class ReaderHooks {
    const failOpenAt: Option<nat>
    var openReaders: int
    ghost var peak: int

    constructor (failOpenAt: Option<nat>)
      ensures this.failOpenAt == failOpenAt && openReaders == 0 && peak == 0
    {
      this.failOpenAt := failOpenAt;
      openReaders := 0;
      peak := 0;
    }

    predicate FailsAt(index: nat) { failOpenAt == Some(index) }

    /** Opening `n` readers one after the other runs into the failing index. */
    predicate FailsWithin(n: nat) { failOpenAt.Some? && failOpenAt.value < n }
  }

  /** A line reader over one sorted file; `current` is the line it stands on. */
  class SortedEventReader {
    const hooks: ReaderHooks
    const lines: seq<Event>
    var consumed: nat
    var current: Option<Event>
    var isClosed: bool

    ghost predicate Valid()
      reads this
    {
      consumed <= |lines| && (current.Some? ==> consumed > 0 && current.value == lines[consumed - 1])
    }

    /** What the reader has still to deliver, the current line first. */
    ghost function Pending(): seq<Event>
      reads this
      requires Valid()
    {
      (if current.Some? then [current.value] else []) + lines[consumed..]
    }

    /** After the first `Advance`, no current line means end of file. */
    ghost predicate Primed()
      reads this
    {
      Valid() && (current.None? ==> consumed == |lines|)
    }

    constructor (lines: seq<Event>, hooks: ReaderHooks)
      modifies hooks
      ensures Valid() && current.None? && consumed == 0 && !isClosed
      ensures this.hooks == hooks && this.lines == lines
      ensures hooks.openReaders == old(hooks.openReaders) + 1
      ensures hooks.peak == Max(old(hooks.peak), hooks.openReaders)
    {
      this.lines := lines;
      this.hooks := hooks;
      consumed, current, isClosed := 0, None, false;
      new;
      hooks.openReaders := hooks.openReaders + 1;
      hooks.peak := Max(hooks.peak, hooks.openReaders);
    }

    method Advance(disk: FaultyDisk) returns (ok: bool)
      requires Valid()
      modifies this`consumed, this`current, disk
      ensures ok ==> Primed()
      ensures ok ==> Pending() == if old(current.Some?) then old(Pending())[1..] else old(Pending())
      ensures disk.accesses >= old(disk.accesses) && (ok <==> disk.Clean(old(disk.accesses)))
    {
      ok := disk.Access();
      if !ok { return; }
      if consumed < |lines| {
        current := Some(lines[consumed]);
        consumed := consumed + 1;
      } else {
        current := None;
      }
    }

    method Close()
      modifies this`isClosed, hooks`openReaders
      ensures isClosed
      ensures hooks.openReaders == old(hooks.openReaders) - if old(isClosed) then 0 else 1
    {
      if !isClosed {
        isClosed := true;
        hooks.openReaders := hooks.openReaders - 1;
      }
    }
  }

  ghost predicate AllOpen(readers: seq<SortedEventReader>, hooks: ReaderHooks)
    reads readers
  {
    && (forall i, j | 0 <= i < j < |readers| :: readers[i] != readers[j])
    && (forall i | 0 <= i < |readers| :: readers[i].hooks == hooks && !readers[i].isClosed)
  }

  /** The readers are distinct, open, and have exactly `runs` still to deliver. */
  ghost predicate Tracks(readers: seq<SortedEventReader>, runs: seq<seq<Event>>, hooks: ReaderHooks)
    reads readers
  {
    && |readers| == |runs|
    && AllOpen(readers, hooks)
    && (forall i | 0 <= i < |readers| :: readers[i].Primed() && readers[i].Pending() == runs[i])
  }

  /** The contents of the named files. */
  ghost function RunsOf(files: Files, paths: seq<FileId>): seq<seq<Event>>
    requires forall p | p in paths :: p in files
  {
    seq(|paths|, i requires 0 <= i < |paths| => files[paths[i]])
  }

  /** The named runs are sorted and together hold `events`, ties in order. */
  ghost predicate RunSet(c: Collation, runs: seq<seq<Event>>, events: seq<Event>)
  {
    AllSorted(c, runs) && SameTies(c, Concat(runs), events)
  }

  lemma {:induction false} AddChunk(c: Collation, runs: seq<seq<Event>>, events: seq<Event>, chunk: seq<Event>)
    requires RunSet(c, runs, events)
    ensures RunSet(c, runs + [StableSort(c, chunk)], events + chunk)
  {
    StableSortIsStable(c, chunk);
    ConcatSnoc(runs, StableSort(c, chunk));
    SameTiesAppend(c, Concat(runs), events, StableSort(c, chunk), chunk);
  }

  lemma SortedParts(c: Collation, a: seq<seq<Event>>, b: seq<seq<Event>>)
    ensures AllSorted(c, a + b) <==> AllSorted(c, a) && AllSorted(c, b)
  {
    if AllSorted(c, a + b) {
      forall i | 0 <= i < |a| ensures Sorted(c, a[i]) { assert (a + b)[i] == a[i]; }
      forall i | 0 <= i < |b| ensures Sorted(c, b[i]) { assert (a + b)[|a| + i] == b[i]; }
    }
  }

  lemma RegroupTies(c: Collation, done: seq<Event>, group: seq<Event>, merged: seq<Event>, rest: seq<Event>)
    requires SameTies(c, merged, group)
    ensures SameTies(c, done + merged + rest, done + (group + rest))
  {
    SameTiesAppend(c, merged, group, rest, rest);
    SameTiesAppend(c, done, done, merged + rest, group + rest);
    assert done + merged + rest == done + (merged + rest);
  }

  /** Replacing a group of neighbouring runs by their merge keeps the run set. */
  lemma {:induction false} MergeGroup(
    c: Collation, done: seq<seq<Event>>, group: seq<seq<Event>>, rest: seq<seq<Event>>, events: seq<Event>)
    requires RunSet(c, done + (group + rest), events)
    ensures RunSet(c, (done + [MergeAll(c, group)]) + rest, events)
  {
    var merged := MergeAll(c, group);
    SortedParts(c, done, group + rest);
    SortedParts(c, group, rest);
    MergeIsStableSort(c, group);
    SortedParts(c, done, [merged]);
    SortedParts(c, done + [merged], rest);
    ConcatAppend(done, group + rest);
    ConcatAppend(group, rest);
    ConcatAppend(done + [merged], rest);
    ConcatSnoc(done, merged);
    RegroupTies(c, Concat(done), Concat(group), merged, Concat(rest));
    SameTiesTransitive(c, Concat((done + [merged]) + rest), Concat(done + (group + rest)), events);
  }

  lemma SameTiesTransitive(c: Collation, a: seq<Event>, b: seq<Event>, d: seq<Event>)
    requires SameTies(c, a, b) && SameTies(c, b, d)
    ensures SameTies(c, a, d)
  {
  }

  /** Merging a run set gives the one stable sort of the events. */
  lemma {:induction false} MergeRunSet(c: Collation, runs: seq<seq<Event>>, events: seq<Event>)
    requires RunSet(c, runs, events)
    ensures MergeAll(c, runs) == StableSort(c, events)
  {
    MergeIsStableSort(c, runs);
    StableSortIsStable(c, events);
    forall e ensures Ties(c, MergeAll(c, runs), e) == Ties(c, StableSort(c, events), e) {
      assert Ties(c, Concat(runs), e) == Ties(c, events, e);
    }
    StableSortUnique(c, MergeAll(c, runs), StableSort(c, events));
  }

  /** The number of runs a merge pass leaves. */
  function Groups(n: nat): nat { (n + MERGE_FAN_IN - 1) / MERGE_FAN_IN }

  lemma GroupsReached(n: nat, groups: nat)
    requires n <= MERGE_FAN_IN * groups < n + MERGE_FAN_IN
    ensures Groups(n) == groups
  {
  }

  /** The number of chunk files that `n` matching events fill. */
  function ChunkCount(n: nat, size: nat): nat
    requires size >= 1
  {
    (n + size - 1) / size
  }

  /** So far `files` files were filled with exactly `size` events each. */
  predicate Filled(written: seq<Event>, size: nat, files: nat) { |written| == size * files }

  lemma NothingFilled(size: nat)
    ensures Filled([], size, 0)
  {
  }

  lemma OneMoreFilled(written: seq<Event>, chunk: seq<Event>, size: nat, files: nat)
    requires Filled(written, size, files) && |chunk| == size
    ensures Filled(written + chunk, size, files + 1)
  {
  }

  lemma FilesForAll(written: seq<Event>, chunk: seq<Event>, size: nat, files: nat)
    requires Filled(written, size, files) && |chunk| < size
    ensures ChunkCount(|written + chunk|, size) == files + if chunk == [] then 0 else 1
  {
    var more := if chunk == [] then 0 else 1;
    var over := |chunk| + size - 1 - size * more;
    assert size * files + |chunk| + size - 1 == size * (files + more) + over;
    DivideExactly(files + more, size, over);
  }

  lemma NothingScanned(c: Collation, options: EventPageOptions)
    ensures RunSet(c, [], []) && TalliesOf([]) == map[]
    ensures Matching([], options.hypothesisIds, options.watermark) == [] && HighestSequence([]) == 0
  {
  }

  lemma NothingHeld(files: Files)
    ensures RunsOf(files, []) == []
  {
  }

  lemma OneMoreHeld(files: Files, paths: seq<FileId>, i: nat)
    requires i < |paths| && forall p | p in paths :: p in files
    ensures RunsOf(files, paths[..i + 1]) == RunsOf(files, paths[..i]) + [files[paths[i]]]
  {
  }

  lemma LineScanned(log: seq<Line>, i: nat, options: EventPageOptions)
    requires i < |log|
    ensures var before := Matching(log[..i], options.hypothesisIds, options.watermark);
            Matching(log[..i + 1], options.hypothesisIds, options.watermark)
            == if log[i].Record? && Matches(log[i].event, options.hypothesisIds, options.watermark)
               then before + [log[i].event] else before
    ensures HighestSequence(log[..i + 1])
            == if log[i].Record? then Max(HighestSequence(log[..i]), log[i].event.sequence)
               else HighestSequence(log[..i])
  {
    assert log[..i + 1][..i] == log[..i] && log[..i + 1][i] == log[i];
  }

  lemma {:induction false} TalliesSnoc(events: seq<Event>, e: Event)
    ensures TalliesOf(events + [e]) == Bump(TalliesOf(events), e.hypothesisId)
  {
  }

  /** A requested epoch is compared only when it is present and non-empty. */
  predicate EpochRejects(options: EventPageOptions, epoch: string)
  {
    options.evidenceEpoch.Some? && options.evidenceEpoch.value != "" && options.evidenceEpoch.value != epoch
  }

  class EventPages {
    const collate: Collation
    const sortChunkSize: nat
    const hooks: ReaderHooks
    const disk: FaultyDisk
    var session: Option<string>   // the evidence epoch in session.json, if the file is there
    var log: seq<Line>            // events.ndjson
    var sortFiles: Files          // log-sort/<operation id> of the latest operation

    ghost predicate Valid() { sortChunkSize >= 1 }

    constructor (collate: Collation, sortChunkSize: nat, hooks: ReaderHooks, disk: FaultyDisk)
      requires sortChunkSize >= 1
      ensures Valid() && this.collate == collate && this.sortChunkSize == sortChunkSize
      ensures this.hooks == hooks && this.disk == disk && session.None? && log == [] && sortFiles == map[]
    {
      this.collate, this.sortChunkSize, this.hooks, this.disk := collate, sortChunkSize, hooks, disk;
      session, log, sortFiles := None, [], map[];
    }

    /** Why an operation that opens up to `opens` readers at a time ended: an access since `from` failed, or
        the injected failure was met before that, or neither. */
    ghost predicate Explained(failure: Option<PageError>, from: nat, opens: nat)
      reads disk
    {
      && from <= disk.accesses
      && match failure
         case None => disk.Clean(from) && !hooks.FailsWithin(opens)
         case Some(IoFailed) => !disk.Clean(from)
         case Some(ReaderOpenFailed) => disk.Clean(from) && hooks.FailsWithin(opens)
         case Some(_) => false
    }

    /** Opens a reader per file; when an open or a first line fails, the readers opened so far are closed, the one
        whose first line failed among them. */
    method OpenSortedReaders(paths: seq<FileId>) returns (failure: Option<PageError>, readers: seq<SortedEventReader>)
      requires forall p | p in paths :: p in sortFiles
      modifies hooks, disk
      ensures Explained(failure, old(disk.accesses), |paths|)
      ensures failure.None? ==> |readers| == |paths| && forall k | 0 <= k < |paths| :: fresh(readers[k])
      ensures failure.None? ==> Tracks(readers, RunsOf(sortFiles, paths), hooks)
      ensures hooks.openReaders == old(hooks.openReaders) + if failure.None? then |paths| else 0
      ensures hooks.peak <= Max(old(hooks.peak), old(hooks.openReaders) + |paths|)
    {
      hide RunsOf;
      readers := [];
      NothingHeld(sortFiles);
      for index := 0 to |paths|
        invariant Explained(None, old(disk.accesses), index)
        invariant |readers| == index && Tracks(readers, RunsOf(sortFiles, paths[..index]), hooks)
        invariant forall k | 0 <= k < index :: fresh(readers[k])
        invariant hooks.openReaders == old(hooks.openReaders) + index
        invariant hooks.peak <= Max(old(hooks.peak), old(hooks.openReaders) + index)
      {
        if hooks.FailsAt(index) {
          CloseAll(readers);
          return Some(ReaderOpenFailed), [];
        }
        OneMoreHeld(sortFiles, paths, index);
        var ok;
        ok, readers := OpenNext(readers, RunsOf(sortFiles, paths[..index]), paths[index]);
        if !ok {
          CloseAll(readers);
          return Some(IoFailed), [];
        }
      }
      assert paths[..|paths|] == paths;
      return None, readers;
    }

    /** Opens one more reader and moves it to its first line; it is open even if that fails. */
    method OpenNext(readers: seq<SortedEventReader>, ghost runs: seq<seq<Event>>, path: FileId)
      returns (ok: bool, longer: seq<SortedEventReader>)
      requires path in sortFiles && Tracks(readers, runs, hooks)
      modifies hooks, disk
      ensures disk.accesses >= old(disk.accesses) && (ok <==> disk.Clean(old(disk.accesses)))
      ensures |longer| == |readers| + 1 && longer[..|readers|] == readers && fresh(longer[|readers|])
      ensures AllOpen(longer, hooks) && (ok ==> Tracks(longer, runs + [sortFiles[path]], hooks))
      ensures hooks.openReaders == old(hooks.openReaders) + 1
      ensures hooks.peak == Max(old(hooks.peak), hooks.openReaders)
    {
      var reader := new SortedEventReader(sortFiles[path], hooks);
      ok := reader.Advance(disk);
      longer := readers + [reader];
    }

    method CloseAll(readers: seq<SortedEventReader>)
      requires AllOpen(readers, hooks)
      modifies readers, hooks`openReaders
      ensures forall k | 0 <= k < |readers| :: readers[k].isClosed
      ensures hooks.openReaders == old(hooks.openReaders) - |readers|
    {
      for i := 0 to |readers|
        invariant forall k | 0 <= k < i :: readers[k].isClosed
        invariant forall k | i <= k < |readers| :: !readers[k].isClosed
        invariant hooks.openReaders == old(hooks.openReaders) - i
      {
        readers[i].Close();
      }
    }

    /** The scan over the open readers: strictly smaller replaces, so the earliest reader wins ties. */
    method NextReader(readers: seq<SortedEventReader>, ghost runs: seq<seq<Event>>)
      returns (selected: SortedEventReader?, ghost at: nat)
      requires Tracks(readers, runs, hooks)
      ensures selected == null <==> Exhausted(runs)
      ensures selected != null ==>
        Picks(collate, runs, at) && selected == readers[at] && selected.current == Some(runs[at][0])
    {
      hide Picks, CompareEvents;
      selected, at := null, 0;
      for i := 0 to |readers|
        invariant selected == null ==> forall j | 0 <= j < i :: runs[j] == []
        invariant selected != null ==>
          at < i && selected == readers[at] && selected.current.Some? && selected.current.value == runs[at][0]
          && Picks(collate, runs[..i], at)
      {
        var reader := readers[i];
        assert reader.Primed() && reader.Pending() == runs[i];
        if reader.current.Some? &&
           (selected == null || CompareEvents(collate, reader.current.value, selected.current.value) < 0.0) {
          if selected == null { FirstPicked(collate, runs, i); } else { PickedInstead(collate, runs, at, i); }
          selected, at := reader, i;
        } else if selected != null {
          StillPicked(collate, runs, at, i);
        }
      }
      assert runs[..|readers|] == runs;
    }

    /** The end of a round of either merge loop: the reader whose line was delivered moves on. */
    method MoveOn(
      selected: SortedEventReader, readers: seq<SortedEventReader>, ghost runs: seq<seq<Event>>, ghost at: nat)
      returns (ok: bool)
      requires Tracks(readers, runs, hooks) && at < |runs| && runs[at] != [] && selected == readers[at]
      modifies readers, disk
      ensures disk.accesses >= old(disk.accesses) && (ok <==> disk.Clean(old(disk.accesses)))
      ensures AllOpen(readers, hooks)
      ensures ok ==> Tracks(readers, runs[at := runs[at][1..]], hooks)
    {
      ghost var left := runs[at := runs[at][1..]];
      ok := selected.Advance(disk);
      if ok {
        forall i | 0 <= i < |readers| ensures readers[i].Primed() && readers[i].Pending() == left[i] {
          if i != at { assert readers[i] != selected; }
        }
      }
    }

    /** Merges the inputs into a new file; every reader is closed whether this succeeds or not. */
    method MergeSortedFiles(inputs: seq<FileId>, output: FileId) returns (failure: Option<PageError>)
      requires forall p | p in inputs :: p in sortFiles
      requires output !in sortFiles  // the file is created with the exclusive flag
      modifies this`sortFiles, hooks, disk
      ensures Explained(failure, old(disk.accesses), |inputs|)
      ensures failure.None? ==>
        sortFiles == old(sortFiles)[output := MergeAll(collate, RunsOf(old(sortFiles), inputs))]
      ensures hooks.openReaders == old(hooks.openReaders)
      ensures hooks.peak <= Max(old(hooks.peak), old(hooks.openReaders) + |inputs|)
    {
      hide Selected, MergeAll, Concat, CompareEvents, Tracks, RunsOf, AllOpen;
      ghost var runs := RunsOf(sortFiles, inputs);
      var readers;
      failure, readers := OpenSortedReaders(inputs);
      if failure.Some? { return; }
      sortFiles := sortFiles[output := []];
      var ok := WriteMerged(readers, runs, output);
      CloseAll(readers);
      if !ok { failure := Some(IoFailed); }
    }

    /** Writes line after line and closes the output; what a failure leaves in it is open. */
    method WriteMerged(readers: seq<SortedEventReader>, ghost all: seq<seq<Event>>, output: FileId)
      returns (ok: bool)
      requires Tracks(readers, all, hooks)
      requires output in sortFiles && sortFiles[output] == []
      modifies this`sortFiles, readers, disk
      ensures disk.accesses >= old(disk.accesses) && (ok <==> disk.Clean(old(disk.accesses)))
      ensures AllOpen(readers, hooks)
      ensures ok ==> sortFiles == old(sortFiles)[output := MergeAll(collate, all)]
    {
      hide Selected, MergeAll, Concat, CompareEvents, Exhausted, AllOpen;
      ghost var runs := all;
      var more := true;
      while more
        invariant disk.accesses >= old(disk.accesses) && disk.Clean(old(disk.accesses))
        invariant Tracks(readers, runs, hooks)
        invariant output in sortFiles && sortFiles == old(sortFiles)[output := sortFiles[output]]
        invariant sortFiles[output] + MergeAll(collate, runs) == MergeAll(collate, all)
        invariant !more ==> MergeAll(collate, runs) == []
        decreases more, |Concat(runs)|
      {
        ghost var before, written := MergeAll(collate, runs), sortFiles[output];
        ok, more, runs := WriteNext(readers, runs, output);
        if !ok { return; }
        assert more ==> written + before == sortFiles[output] + MergeAll(collate, runs);
      }
      assert sortFiles[output] + [] == sortFiles[output];
      ok := disk.Access();
    }

    method WriteNext(readers: seq<SortedEventReader>, ghost runs: seq<seq<Event>>, output: FileId)
      returns (ok: bool, more: bool, ghost left: seq<seq<Event>>)
      requires Tracks(readers, runs, hooks) && output in sortFiles
      modifies this`sortFiles, readers, disk
      ensures disk.accesses >= old(disk.accesses) && (ok <==> disk.Clean(old(disk.accesses)))
      ensures AllOpen(readers, hooks)
      ensures ok && !more ==> left == runs && MergeAll(collate, runs) == [] && sortFiles == old(sortFiles)
      ensures ok ==> Tracks(readers, left, hooks)
      ensures ok && more ==>
        && |Concat(left)| < |Concat(runs)| && MergeAll(collate, runs) != []
        && MergeAll(collate, runs)[1..] == MergeAll(collate, left)
        && sortFiles == old(sortFiles)[output := old(sortFiles)[output] + [MergeAll(collate, runs)[0]]]
    {
      hide Selected, MergeAll, Concat, CompareEvents, Exhausted;
      var selected, at := NextReader(readers, runs);
      MergeUnfold(collate, runs, at, selected != null);
      if selected == null { return true, false, runs; }
      left := runs[at := runs[at][1..]];
      more := true;
      ok := disk.Access();
      if !ok { return; }
      sortFiles := sortFiles[output := sortFiles[output] + [selected.current.value]];
      ok := MoveOn(selected, readers, runs, at);
    }

    /** Delivers the events ranked offset .. offset+limit of the merge, and stops there; every reader is closed
        whether this succeeds or not. */
    method ReadMergedPage(paths: seq<FileId>, offset: nat, limit: nat)
      returns (failure: Option<PageError>, records: seq<Event>)
      requires forall p | p in paths :: p in sortFiles
      modifies hooks, disk
      ensures Explained(failure, old(disk.accesses), |paths|)
      ensures failure.None? ==> records == Slice(MergeAll(collate, RunsOf(sortFiles, paths)), offset, limit)
      ensures hooks.openReaders == old(hooks.openReaders)
      ensures hooks.peak <= Max(old(hooks.peak), old(hooks.openReaders) + |paths|)
    {
      hide Selected, MergeAll, Concat, CompareEvents, Tracks, RunsOf, AllOpen, Slice;
      records := [];
      var readers;
      failure, readers := OpenSortedReaders(paths);
      if failure.Some? { return; }
      ghost var runs := RunsOf(sortFiles, paths);
      var ok;
      ok, records := CollectPage(readers, runs, offset, limit);
      CloseAll(readers);
      if !ok { failure := Some(IoFailed); }
    }

    method CollectPage(readers: seq<SortedEventReader>, ghost runs: seq<seq<Event>>, offset: nat, limit: nat)
      returns (ok: bool, records: seq<Event>)
      requires Tracks(readers, runs, hooks)
      modifies readers, disk
      ensures disk.accesses >= old(disk.accesses) && (ok <==> disk.Clean(old(disk.accesses)))
      ensures AllOpen(readers, hooks)
      ensures ok ==> records == Slice(MergeAll(collate, runs), offset, limit)
    {
      hide Selected, MergeAll, Concat, CompareEvents, Exhausted, AllOpen;
      records := [];
      var index := 0;
      ghost var all, rest := MergeAll(collate, runs), runs;
      while |records| < limit
        invariant disk.accesses >= old(disk.accesses) && disk.Clean(old(disk.accesses))
        invariant Tracks(readers, rest, hooks)
        invariant index <= |all| && MergeAll(collate, rest) == all[index..]
        invariant |records| <= limit
        invariant records == all[Min(offset, index)..index]
        decreases |Concat(rest)|
      {
        var next;
        ghost var left;
        ok, next, left := ReadNext(readers, rest);
        if !ok { return; }
        if next.None? {
          assert all[index..] == [];
          break;
        }
        NextOf(all, index, next.value, MergeAll(collate, left), Min(offset, index));
        if index >= offset { records := records + [next.value]; }
        index := index + 1;
        rest := left;
      }
      ok := true;
    }

    method ReadNext(readers: seq<SortedEventReader>, ghost runs: seq<seq<Event>>)
      returns (ok: bool, next: Option<Event>, ghost left: seq<seq<Event>>)
      requires Tracks(readers, runs, hooks)
      modifies readers, disk
      ensures disk.accesses >= old(disk.accesses) && (ok <==> disk.Clean(old(disk.accesses)))
      ensures AllOpen(readers, hooks)
      ensures ok ==> Tracks(readers, left, hooks)
      ensures ok && next.None? ==> left == runs && MergeAll(collate, runs) == []
      ensures ok && next.Some? ==>
        |Concat(left)| < |Concat(runs)| && MergeAll(collate, runs) == [next.value] + MergeAll(collate, left)
    {
      hide Selected, MergeAll, Concat, CompareEvents, Exhausted;
      var selected, at := NextReader(readers, runs);
      MergeUnfold(collate, runs, at, selected != null);
      if selected == null { return true, None, runs; }
      left := runs[at := runs[at][1..]];
      next := selected.current;
      ok := MoveOn(selected, readers, runs, at);
    }

    /** The named runs exist and hold `events`; every name in use is below the counter. */
    ghost predicate Holds(paths: seq<FileId>, fileIndex: nat, events: seq<Event>)
      reads this
    {
      && (forall p | p in paths :: p in sortFiles)
      && (forall f | f in sortFiles :: f.number < fileIndex)
      && RunSet(collate, RunsOf(sortFiles, paths), events)
    }

    method FlushChunk(chunk: seq<Event>, paths: seq<FileId>, fileIndex: nat, ghost events: seq<Event>)
      returns (ok: bool, paths': seq<FileId>, fileIndex': nat)
      requires Holds(paths, fileIndex, events)
      modifies this`sortFiles, disk
      ensures disk.accesses >= old(disk.accesses) && (ok <==> disk.Clean(old(disk.accesses)))
      ensures ok ==> Holds(paths', fileIndex', events + chunk)
      ensures ok ==> |paths'| == |paths| + if chunk == [] then 0 else 1
    {
      hide Concat, Ties;
      paths', fileIndex' := paths, fileIndex;
      if chunk == [] {
        assert events + chunk == events;
        return true, paths, fileIndex;
      }
      var path := Chunk(fileIndex);
      fileIndex' := fileIndex + 1;
      ok := disk.Access();
      if !ok { return; }
      assert path !in sortFiles;
      ghost var runs := RunsOf(sortFiles, paths);
      sortFiles := sortFiles[path := StableSort(collate, chunk)];
      AddChunk(collate, runs, events, chunk);
      paths' := paths + [path];
      assert RunsOf(sortFiles, paths') == runs + [StableSort(collate, chunk)];
    }

    /** One pass over the runs: every group of neighbours becomes one run under a fresh name. */
    method MergePass(paths: seq<FileId>, fileIndex: nat, ghost events: seq<Event>)
      returns (failure: Option<PageError>, merged: seq<FileId>, fileIndex': nat)
      requires Holds(paths, fileIndex, events)
      modifies this`sortFiles, hooks, disk
      ensures Explained(failure, old(disk.accesses), Min(32, |paths|))
      ensures failure.None? ==> Holds(merged, fileIndex', events) && |merged| == Groups(|paths|)
      ensures hooks.openReaders == old(hooks.openReaders)
      ensures hooks.peak <= Max(old(hooks.peak), old(hooks.openReaders) + 32)
    {
      hide Concat, Ties, MergeAll, Selected, Holds, Groups;
      merged, fileIndex' := [], fileIndex;
      var index := 0;
      assert [] + paths[0..] == paths;
      while index < |paths|
        invariant index == MERGE_FAN_IN * |merged|
        invariant index < |paths| + MERGE_FAN_IN
        invariant Explained(None, old(disk.accesses), if index > 0 then Min(MERGE_FAN_IN, |paths|) else 0)
        invariant Holds(merged + paths[Min(index, |paths|)..], fileIndex', events)
        invariant hooks.openReaders == old(hooks.openReaders)
        invariant hooks.peak <= Max(old(hooks.peak), old(hooks.openReaders) + MERGE_FAN_IN)
      {
        var end := Min(index + MERGE_FAN_IN, |paths|);
        assert paths[index..] == paths[index..end] + paths[end..];
        failure := MergeOneGroup(merged, paths[index..end], paths[end..], fileIndex', events);
        if failure.Some? { return; }
        merged := merged + [Merge(fileIndex')];
        fileIndex' := fileIndex' + 1;
        index := index + MERGE_FAN_IN;
      }
      assert merged + paths[Min(index, |paths|)..] == merged;
      GroupsReached(|paths|, |merged|);
      failure := None;
    }

    method MergeOneGroup(
      done: seq<FileId>, group: seq<FileId>, rest: seq<FileId>, fileIndex: nat, ghost events: seq<Event>)
      returns (failure: Option<PageError>)
      requires Holds(done + (group + rest), fileIndex, events)
      modifies this`sortFiles, hooks, disk
      ensures Explained(failure, old(disk.accesses), |group|)
      ensures failure.None? ==> Holds((done + [Merge(fileIndex)]) + rest, fileIndex + 1, events)
      ensures hooks.openReaders == old(hooks.openReaders)
      ensures hooks.peak <= Max(old(hooks.peak), old(hooks.openReaders) + |group|)
    {
      hide Concat, Ties, MergeAll, Selected;
      var output := Merge(fileIndex);
      ghost var before := sortFiles;
      assert output !in before;
      assert forall p | p in group :: p in done + (group + rest);
      failure := MergeSortedFiles(group, output);
      if failure.None? {
        RunsOfGroup(before, done, group, rest, output, MergeAll(collate, RunsOf(before, group)));
        MergeGroup(collate, RunsOf(before, done), RunsOf(before, group), RunsOf(before, rest), events);
      }
    }

    /** Merge passes until one final merge can take all runs at once. */
    method MergePasses(paths: seq<FileId>, fileIndex: nat, ghost events: seq<Event>)
      returns (failure: Option<PageError>, merged: seq<FileId>, ghost fileIndex': nat)
      requires Holds(paths, fileIndex, events)
      modifies this`sortFiles, hooks, disk
      ensures failure.Some? ==> Explained(failure, old(disk.accesses), Min(32, |paths|))
      ensures failure.None? ==> old(disk.accesses) <= disk.accesses && disk.Clean(old(disk.accesses))
      ensures failure.None? ==> Holds(merged, fileIndex', events) && |merged| <= 32
      ensures failure.None? ==> (hooks.FailsWithin(|merged|) <==> hooks.FailsWithin(Min(32, |paths|)))
      ensures hooks.openReaders == old(hooks.openReaders)
      ensures hooks.peak <= Max(old(hooks.peak), old(hooks.openReaders) + 32)
    {
      hide Concat, Ties, MergeAll, Selected;
      fileIndex' := fileIndex;
      var next := fileIndex;
      merged := paths;
      while |merged| > MERGE_FAN_IN
        invariant Holds(merged, next, events)
        invariant old(disk.accesses) <= disk.accesses && disk.Clean(old(disk.accesses))
        invariant merged == paths || (|paths| > MERGE_FAN_IN && !hooks.FailsWithin(MERGE_FAN_IN))
        invariant hooks.openReaders == old(hooks.openReaders)
        invariant hooks.peak <= Max(old(hooks.peak), old(hooks.openReaders) + MERGE_FAN_IN)
        decreases |merged|
      {
        var after, next';
        failure, after, next' := MergePass(merged, next, events);
        if failure.Some? { return; }
        merged, next := after, next';
      }
      return None, merged, next;
    }

    /** `chunk.push`, and the flush of a full chunk. */
    method Push(e: Event, chunk: seq<Event>, paths: seq<FileId>, fileIndex: nat, ghost written: seq<Event>)
      returns (ok: bool, chunk': seq<Event>, paths': seq<FileId>, fileIndex': nat, ghost written': seq<Event>)
      requires Holds(paths, fileIndex, written)
      requires |chunk| < sortChunkSize && Filled(written, sortChunkSize, |paths|)
      modifies this`sortFiles, disk
      ensures disk.accesses >= old(disk.accesses) && (ok <==> disk.Clean(old(disk.accesses)))
      ensures ok ==> Holds(paths', fileIndex', written') && written' + chunk' == written + chunk + [e]
      ensures ok ==> |chunk'| < sortChunkSize && Filled(written', sortChunkSize, |paths'|)
    {
      hide Holds, Filled;
      ok, chunk', paths', fileIndex', written' := true, chunk + [e], paths, fileIndex, written;
      assert written + chunk' == written + chunk + [e];
      if |chunk'| == sortChunkSize {
        OneMoreFilled(written, chunk', sortChunkSize, |paths|);
        ok, paths', fileIndex' := FlushChunk(chunk', paths, fileIndex, written);
        written', chunk' := written + chunk', [];
        assert written' + [] == written';
      }
    }

    /** Reads the log once: counts, watermark, and one sorted file per full chunk of matching events. */
    method ScanLog(options: EventPageOptions) returns (
      failure: Option<PageError>, paths: seq<FileId>, fileIndex: nat, tallies: map<string, Tally>, total: nat,
      watermark: int)
      requires Valid() && sortFiles == map[]
      modifies this`sortFiles, disk
      ensures disk.accesses >= old(disk.accesses)
      ensures failure == if !disk.Clean(old(disk.accesses)) then Some(IoFailed)
                         else if !Parses(log) then Some(LogCorrupt) else None
      ensures failure.None? ==> Holds(paths, fileIndex, Matching(log, options.hypothesisIds, options.watermark))
      ensures failure.None? ==> |paths| == ChunkCount(total, sortChunkSize)
      ensures failure.None? ==> tallies == TalliesOf(Matching(log, options.hypothesisIds, options.watermark))
      ensures failure.None? ==> total == |Matching(log, options.hypothesisIds, options.watermark)|
      ensures failure.None? ==>
        watermark == if options.watermark.Some? then options.watermark.value else HighestSequence(log)
    {
      hide Concat, Ties, TalliesOf, Bump, ChunkCount, RunSet, RunsOf, Filled, Matching, HighestSequence, Matches;
      paths, fileIndex, tallies, total := [], 0, map[], 0;
      watermark := if options.watermark.Some? then options.watermark.value else 0;
      var chunk: seq<Event> := [];
      ghost var written: seq<Event> := [];
      NothingHeld(sortFiles);
      NothingFilled(sortChunkSize);
      NothingScanned(collate, options);
      var ok;
      for i := 0 to |log|
        invariant disk.accesses >= old(disk.accesses) && disk.Clean(old(disk.accesses))
        invariant Parses(log[..i])
        invariant Holds(paths, fileIndex, written)
        invariant written + chunk == Matching(log[..i], options.hypothesisIds, options.watermark)
        invariant |chunk| < sortChunkSize && Filled(written, sortChunkSize, |paths|)
        invariant tallies == TalliesOf(written + chunk) && total == |written + chunk|
        invariant watermark == if options.watermark.Some? then options.watermark.value else HighestSequence(log[..i])
      {
        ok := disk.Access();
        if !ok { return Some(IoFailed), paths, fileIndex, tallies, total, watermark; }
        var line := log[i];
        LineScanned(log, i, options);
        if line.Garbage? {
          return Some(LogCorrupt), paths, fileIndex, tallies, total, watermark;
        }
        if line.Record? {
          if options.watermark.None? { watermark := Max(watermark, line.event.sequence); }
          if Matches(line.event, options.hypothesisIds, options.watermark) {
            TalliesSnoc(written + chunk, line.event);
            tallies := Bump(tallies, line.event.hypothesisId);
            total := total + 1;
            ok, chunk, paths, fileIndex, written := Push(line.event, chunk, paths, fileIndex, written);
            if !ok { return Some(IoFailed), paths, fileIndex, tallies, total, watermark; }
          }
        }
      }
      assert log[..|log|] == log;
      FilesForAll(written, chunk, sortChunkSize, |paths|);
      ok, paths, fileIndex := FlushChunk(chunk, paths, fileIndex, written);
      failure := if ok then None else Some(IoFailed);
    }

    /** The counts of a status reply. Lines that do not parse are passed over, so on a log that parses they are
        the totals of an unfiltered page. */
    method Summarize() returns (eventCount: nat, watermark: nat)
      ensures eventCount == |Matching(log, [], None)| && watermark == HighestSequence(log)
      ensures forall epoch, limit, offset ::
        var page := PageOf(collate, log, epoch, EventPageOptions(None, [], limit, offset, None));
        page.totalRecords == eventCount && page.watermark == watermark
    {
      hide StableSort, TalliesOf, Slice;
      eventCount, watermark := 0, 0;
      for i := 0 to |log|
        invariant eventCount == |Matching(log[..i], [], None)| && watermark == HighestSequence(log[..i])
      {
        assert log[..i + 1][..i] == log[..i] && log[..i + 1][i] == log[i];
        if log[i].Record? {
          eventCount := eventCount + 1;
          watermark := Max(watermark, log[i].event.sequence);
        }
      }
      assert log[..|log|] == log;
    }

    /** The request handler: epoch check, external sort, page, and removal of the sort files on every exit. */
    method ReadPage(options: EventPageOptions) returns (r: Result<EventPage, PageError>)
      requires Valid()
      modifies this`sortFiles, hooks, disk
      ensures hooks.openReaders == old(hooks.openReaders)
      ensures hooks.peak <= Max(old(hooks.peak), old(hooks.openReaders) + 32)
      ensures disk.accesses >= old(disk.accesses)
      ensures r ==
        if session.None? then Err(SessionMissing)
        else if EpochRejects(options, session.value) then Err(EpochMismatch)
        else if !disk.Clean(old(disk.accesses)) then Err(IoFailed)
        else if !Parses(log) then Err(LogCorrupt)
        else if hooks.FailsWithin(Min(MERGE_FAN_IN, ChunkCount(
          |Matching(log, options.hypothesisIds, options.watermark)|, sortChunkSize))) then Err(ReaderOpenFailed)
        else Ok(PageOf(collate, log, session.value, options))
      ensures r.Ok? ==> PageShows(collate, log, options, r.value)
      ensures r == Err(EpochMismatch) <==>
        session.Some? && options.evidenceEpoch.Some? && options.evidenceEpoch.value !in {"", session.value}
      ensures session.None? || EpochRejects(options, session.value) ==> sortFiles == old(sortFiles)
      ensures session.Some? && !EpochRejects(options, session.value) ==>
        sortFiles == map[] || (disk.accesses > 0 && disk.fails(disk.accesses - 1))
    {
      hide PageOf, PageShows, Matching, ChunkCount, Parses;
      if session.None? { return Err(SessionMissing); }
      PageOfShows(collate, log, session.value, options);
      if EpochRejects(options, session.value) { return Err(EpochMismatch); }
      var ok := disk.Access();
      if !ok { return Err(IoFailed); }
      sortFiles := map[];
      r := SortedPage(options, session.value);
      ok := disk.Access();
      if !ok { return Err(IoFailed); }
      sortFiles := map[];
    }

    /** The guarded part of `readPage`. */
    method SortedPage(options: EventPageOptions, epoch: string) returns (r: Result<EventPage, PageError>)
      requires Valid() && sortFiles == map[]
      modifies this`sortFiles, hooks, disk
      ensures hooks.openReaders == old(hooks.openReaders)
      ensures hooks.peak <= Max(old(hooks.peak), old(hooks.openReaders) + 32)
      ensures disk.accesses >= old(disk.accesses)
      ensures r ==
        if !disk.Clean(old(disk.accesses)) then Err(IoFailed)
        else if !Parses(log) then Err(LogCorrupt)
        else if hooks.FailsWithin(Min(MERGE_FAN_IN, ChunkCount(
          |Matching(log, options.hypothesisIds, options.watermark)|, sortChunkSize))) then Err(ReaderOpenFailed)
        else Ok(PageOf(collate, log, epoch, options))
    {
      hide Concat, Ties, MergeAll, Selected, TalliesOf, ChunkCount, Matching, HighestSequence, StableSort, Slice;
      ghost var matching := Matching(log, options.hypothesisIds, options.watermark);
      var failure, paths, fileIndex, tallies, total, watermark := ScanLog(options);
      if failure.Some? { return Err(failure.value); }
      ghost var next;
      failure, paths, next := MergePasses(paths, fileIndex, matching);
      if failure.Some? { return Err(failure.value); }
      MergeRunSet(collate, RunsOf(sortFiles, paths), matching);
      var records;
      failure, records := ReadMergedPage(paths, options.offset, options.limit);
      if failure.Some? { return Err(failure.value); }
      return Ok(EventPage(epoch, records, tallies, total, watermark));
    }
  }

  /** The runs of a list whose middle group was merged into one file. */
  lemma RunsOfGroup(
    files: Files, done: seq<FileId>, group: seq<FileId>, rest: seq<FileId>, output: FileId, merged: seq<Event>)
    requires forall p | p in done + (group + rest) :: p in files
    requires output !in files
    ensures RunsOf(files, done + (group + rest)) == RunsOf(files, done) + (RunsOf(files, group) + RunsOf(files, rest))
    ensures (forall p | p in (done + [output]) + rest :: p in files[output := merged])
    ensures RunsOf(files[output := merged], (done + [output]) + rest)
         == (RunsOf(files, done) + [merged]) + RunsOf(files, rest)
  {
  }

  lemma NextOf(all: seq<Event>, index: nat, e: Event, rest: seq<Event>, start: nat)
    requires start <= index <= |all| && all[index..] == [e] + rest
    ensures index < |all| && all[index + 1..] == rest
    ensures all[start..index + 1] == all[start..index] + [e]
  {
  }

  lemma FirstPicked(c: Collation, runs: seq<seq<Event>>, i: nat)
    requires i < |runs| && runs[i] != [] && forall j | 0 <= j < i :: runs[j] == []
    ensures Picks(c, runs[..i + 1], i)
  {
  }

  lemma PickedInstead(c: Collation, runs: seq<seq<Event>>, at: nat, i: nat)
    requires at < i < |runs| && Picks(c, runs[..i], at)
    requires runs[i] != [] && CompareEvents(c, runs[i][0], runs[at][0]) < 0.0
    ensures Picks(c, runs[..i + 1], i)
  {
  }

  lemma StillPicked(c: Collation, runs: seq<seq<Event>>, at: nat, i: nat)
    requires at < i < |runs| && Picks(c, runs[..i], at)
    requires runs[i] != [] ==> CompareEvents(c, runs[i][0], runs[at][0]) >= 0.0
    ensures Picks(c, runs[..i + 1], at)
  {
  }

  lemma MergeUnfold(c: Collation, runs: seq<seq<Event>>, at: nat, found: bool)
    requires if found then Picks(c, runs, at) else Exhausted(runs)
    ensures MergeAll(c, runs)
         == if found then [runs[at][0]] + MergeAll(c, runs[at := runs[at][1..]]) else []
    ensures found ==> |Concat(runs[at := runs[at][1..]])| < |Concat(runs)|
  {
    if found { ConcatDropHead(runs, at); }
  }
}
