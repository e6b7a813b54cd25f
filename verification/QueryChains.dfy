/** Following query cursors from page to page while the log grows. */
module QueryChains {
  import opened Common
  import opened Lines
  import opened QueryPage

  /** From `pos` on, the file has only lines that the scope leaves out. */
  ghost predicate Invisible(e: Engine, scope: Scope, file: seq<byte>, pos: nat)
    decreases |file| - pos
  {
    pos >= |file| ||
    (var end := LineEnd(file, pos);
     var line := TrimEnd(file[pos..end]);
     (line == [] || (e.classify(line).Record? && !InScope(scope, e.classify(line))))
     && Invisible(e, scope, file, end))
  }

  /** `later` is `earlier` with lines appended that the scope leaves out. */
  ghost predicate GrowsUnseen(e: Engine, scope: Scope, earlier: seq<byte>, later: seq<byte>)
  {
    Complete(earlier) && earlier <= later && Invisible(e, scope, later, |earlier|)
  }

  lemma {:induction false} InvisibleRun(e: Engine, scope: Scope, file: seq<byte>, pos: nat, skip: nat)
    requires Invisible(e, scope, file, pos)
    ensures RunFrom(e, scope, file, pos, skip) == Run([], Finished)
    decreases |file| - pos
  {
    if pos < |file| { InvisibleRun(e, scope, file, LineEnd(file, pos), 0); }
  }

  /** Growth outside the scope leaves the run from any position unchanged. */
  lemma {:induction false} RunIgnoresGrowth(
    e: Engine, scope: Scope, earlier: seq<byte>, later: seq<byte>, pos: nat, skip: nat)
    requires GrowsUnseen(e, scope, earlier, later) && pos <= |earlier|
    ensures RunFrom(e, scope, later, pos, skip) == RunFrom(e, scope, earlier, pos, skip)
    decreases |earlier| - pos
  {
    if pos == |earlier| {
      InvisibleRun(e, scope, later, pos, skip);
    } else {
      var more := later[|earlier|..];
      assert later == earlier + more;
      LineEndStable(earlier, more, pos);
      var end := LineEnd(earlier, pos);
      assert later[pos..end] == earlier[pos..end];
      RunIgnoresGrowth(e, scope, earlier, later, end, 0);
    }
  }

  /** A chain of calls: each starts where the one before handed over, on a log that only grew unseen. */
  ghost predicate Chain(
    e: Engine, scope: Scope, limit: nat, timely: bool,
    files: seq<seq<byte>>, starts: seq<Position>, results: seq<Result<QueryPage, Failure>>)
  {
    && |files| == |starts| == |results| > 0
    && limit >= 1
    && starts[0] == Position(0, 0)
    && (forall i | 0 <= i < |files| :: PageAt(e, scope, files[i], starts[i], limit, timely, results[i]))
    && (forall i | 0 <= i < |files| - 1 :: results[i].Ok?)
    && (forall i, j | 0 <= i < j < |files| && j == i + 1 :: results[i].value.next == Some(starts[j]))
    && (forall i, j | 0 <= i < j < |files| && j == i + 1 :: GrowsUnseen(e, scope, files[i], files[j]))
  }

  /** The rows of the first `n` pages of a chain. */
  function Rows(results: seq<Result<QueryPage, Failure>>, n: nat): seq<Value>
    requires n <= |results| && forall i | 0 <= i < n :: results[i].Ok?
  {
    if n == 0 then [] else Rows(results, n - 1) + results[n - 1].value.results
  }

  /** One hand-over: the page joins what was delivered, and the grown log continues the same run. */
  lemma HandOver(
    e: Engine, scope: Scope, limit: nat, timely: bool, file: seq<byte>, later: seq<byte>, start: Position,
    page: QueryPage, delivered: seq<Value>, all: Run)
    requires PageAt(e, scope, file, start, limit, timely, Ok(page)) && page.next.Some?
    requires start.byteOffset <= |file| && GrowsUnseen(e, scope, file, later)
    requires Completes(delivered, RunAt(e, scope, file, start), all)
    ensures page.next.value.byteOffset <= |later| && Later(start, page.next.value)
    ensures Completes(delivered + page.results, RunAt(e, scope, later, page.next.value), all)
    ensures timely ==>
      RunAt(e, scope, later, page.next.value).values != [] || RunAt(e, scope, later, page.next.value).stop.Deferred?
  {
    hide RunFrom, Invisible;
    var here := RunAt(e, scope, file, start);
    RunIgnoresGrowth(e, scope, file, later, page.next.value.byteOffset, page.next.value.ordinal);
    assert here.values == here.values[..limit] + here.values[limit..];
  }

  /** What was delivered before page `n`, followed by the run from its start, is the run over the first log. */
  lemma {:induction false} ChainInvariant(
    e: Engine, scope: Scope, limit: nat, timely: bool,
    files: seq<seq<byte>>, starts: seq<Position>, results: seq<Result<QueryPage, Failure>>, n: nat)
    requires Chain(e, scope, limit, timely, files, starts, results) && n < |files|
    ensures starts[n].byteOffset <= |files[n]|
    ensures Completes(Rows(results, n), RunAt(e, scope, files[n], starts[n]), RunFrom(e, scope, files[0], 0, 0))
    ensures n > 0 ==> Later(starts[n - 1], starts[n])
    ensures n > 0 && timely ==>
      RunAt(e, scope, files[n], starts[n]).values != [] || RunAt(e, scope, files[n], starts[n]).stop.Deferred?
  {
    hide RunFrom, GrowsUnseen, PageAt, Completes;
    if n == 0 {
      NothingDelivered(RunFrom(e, scope, files[0], 0, 0));
    } else {
      ChainInvariant(e, scope, limit, timely, files, starts, results, n - 1);
      assert PageAt(e, scope, files[n - 1], starts[n - 1], limit, timely, results[n - 1]);
      var page := results[n - 1].value;
      assert page.next == Some(starts[n]);
      HandOver(e, scope, limit, timely, files[n - 1], files[n], starts[n - 1], page, Rows(results, n - 1),
               RunFrom(e, scope, files[0], 0, 0));
    }
  }

  lemma NothingDelivered(all: Run)
    ensures Completes([], all, all)
  {
  }

  lemma {:induction false} RowsCount(
    e: Engine, scope: Scope, limit: nat, timely: bool,
    files: seq<seq<byte>>, starts: seq<Position>, results: seq<Result<QueryPage, Failure>>, n: nat)
    requires Chain(e, scope, limit, timely, files, starts, results) && n < |files|
    ensures |Rows(results, n)| == n * limit
  {
    if n > 0 {
      RowsCount(e, scope, limit, timely, files, starts, results, n - 1);
      assert PageAt(e, scope, files[n - 1], starts[n - 1], limit, timely, results[n - 1]);
      assert results[n - 1].value.next == Some(starts[n]);
      assert n * limit == (n - 1) * limit + limit;
    }
  }

  /** A chain followed to a page without a continuation delivers one complete run over the log of the
      first page: nothing lost, nothing repeated, whenever deadlines fired and whatever was appended. */
  lemma {:induction false} CompletedChain(
    e: Engine, scope: Scope, limit: nat, timely: bool,
    files: seq<seq<byte>>, starts: seq<Position>, results: seq<Result<QueryPage, Failure>>)
    requires Chain(e, scope, limit, timely, files, starts, results)
    requires var last := results[|results| - 1]; last.Ok? && last.value.next.None?
    ensures Rows(results, |results|) == RunFrom(e, scope, files[0], 0, 0).values
    ensures RunFrom(e, scope, files[0], 0, 0).stop == Finished
    ensures forall i | 0 <= i < |results| - 1 :: |results[i].value.results| == limit && Later(starts[i], starts[i + 1])
  {
    var last := |results| - 1;
    ChainInvariant(e, scope, limit, timely, files, starts, results, last);
    assert PageAt(e, scope, files[last], starts[last], limit, timely, results[last]);
    forall i | 0 <= i < last ensures |results[i].value.results| == limit && Later(starts[i], starts[i + 1]) {
      assert PageAt(e, scope, files[i], starts[i], limit, timely, results[i]);
      assert results[i].value.next == Some(starts[i + 1]);
    }
  }

  /** Without timeouts, a run of `p` values that ends in an error delivers `limit * (p / limit)` of them
      before the error page when the error is deferred. The one undeferred error, a line that jaq's own
      parser rejects, is raised as soon as it is met: the page just before it is lost even when full. */
  lemma FailedChain(
    e: Engine, scope: Scope, limit: nat,
    files: seq<seq<byte>>, starts: seq<Position>, results: seq<Result<QueryPage, Failure>>)
    requires Chain(e, scope, limit, true, files, starts, results)
    requires results[|results| - 1].Err? && e.compiles
    ensures var all := RunFrom(e, scope, files[0], 0, 0);
            var pages := |results| - 1;
            && Rows(results, pages) <= all.values
            && |Rows(results, pages)| == pages * limit
            && !all.stop.Finished?
            && (all.stop.Deferred? ==> pages == |all.values| / limit)
            && (all.stop.Immediate? ==> pages == if |all.values| == 0 then 0 else (|all.values| - 1) / limit)
            && results[pages].error == all.stop.failure
  {
    hide RunFrom, GrowsUnseen, PageAt, Completes;
    var last := |results| - 1;
    var all := RunFrom(e, scope, files[0], 0, 0);
    ChainInvariant(e, scope, limit, true, files, starts, results, last);
    RowsCount(e, scope, limit, true, files, starts, results, last);
    assert PageAt(e, scope, files[last], starts[last], limit, true, results[last]);
    ErrorPage(e, scope, files[last], starts[last], limit, last, Rows(results, last), all, results[last].error);
  }

  /** jaq yields one value for the line "A" and cannot parse any other. */
  function ParsesOnlyA(value: Value): Engine
  {
    Engine(_ => Record(None, Some(1.0)), line => if line == [65] then Outputs([value], false) else Unparsed, true)
  }

  lemma {:induction false} RunOfAThenB(value: Value, file: seq<byte>)
    requires file == [65, LF, 66, LF]
    ensures RunFrom(ParsesOnlyA(value), Scope([], 1.0), file, 0, 0) == Run([value], Immediate(EvidenceMalformed))
  {
    var e, scope := ParsesOnlyA(value), Scope([], 1.0);
    LineEndAt(file, 0, 2);
    LineEndAt(file, 2, 4);
    assert file[0..2] == [65] + [LF] && file[2..4] == [66] + [LF];
    TrimLine([65]);
    TrimLine([66]);
    hide LineEnd, TrimEnd;
    assert RunFrom(e, scope, file, 2, 0) == Run([], Immediate(EvidenceMalformed));
  }

  /** The undeferred error costs a full page: for a log of two records, the second one unparsable, the only
      answer to a request for one value is the error, although the first record has that value. */
  lemma ParseErrorLosesAFullPage(value: Value, r: Result<QueryPage, Failure>)
    ensures var e, scope, file := ParsesOnlyA(value), Scope([], 1.0), [65, LF, 66, LF];
            && RunFrom(e, scope, file, 0, 0) == Run([value], Immediate(EvidenceMalformed))
            && (PageAt(e, scope, file, Position(0, 0), 1, true, r) ==> r == Err(EvidenceMalformed))
  {
    hide RunFrom;
    RunOfAThenB(value, [65, LF, 66, LF]);
  }

  /** The arithmetic of the error page, from what was delivered before it. */
  lemma ErrorPage(
    e: Engine, scope: Scope, file: seq<byte>, start: Position, limit: nat, n: nat, rows: seq<Value>, all: Run,
    f: Failure)
    requires limit >= 1 && e.compiles && |rows| == n * limit
    requires PageAt(e, scope, file, start, limit, true, Err(f))
    requires Completes(rows, RunAt(e, scope, file, start), all)
    requires n > 0 ==> RunAt(e, scope, file, start).values != [] || RunAt(e, scope, file, start).stop.Deferred?
    ensures rows <= all.values && !all.stop.Finished? && f == all.stop.failure
    ensures all.stop.Deferred? ==> n == |all.values| / limit
    ensures all.stop.Immediate? ==> n == if |all.values| == 0 then 0 else (|all.values| - 1) / limit
  {
    hide RunFrom;
    var rest := |RunAt(e, scope, file, start).values|;
    assert |all.values| == n * limit + rest;
    if all.stop.Deferred? {
      DivideExactly(n, limit, rest);
    } else if rest > 0 {
      DivideExactly(n, limit, rest - 1);
    }
  }

  /** When no deadline check fires the run decides the outcome: the values, whether there is a continuation, and
      whether there is an error. */
  lemma TimelyPagesAreDetermined(
    e: Engine, scope: Scope, file: seq<byte>, start: Position, limit: nat, r: Result<QueryPage, Failure>)
    requires limit >= 1 && e.compiles && PageAt(e, scope, file, start, limit, true, r)
    ensures var all := RunAt(e, scope, file, start);
            && (r.Ok? && r.value.next.Some? <==>
                  |all.values| > limit || (all.stop.Deferred? && |all.values| == limit))
            && (r.Ok? && r.value.next.None? <==> all.stop == Finished && |all.values| <= limit)
            && (r.Ok? ==> r.value.results == all.values[..Min(limit, |all.values|)])
  {
  }
}
