/** `run_streaming_page`: one page of a jaq run over the log, resumable at (byte offset, output ordinal). */
module QueryPage {
  import opened Common
  import opened Lines

  type Value = string

  /** What serde_json makes of a line: not UTF-8, not JSON, or a value with the two scope fields.
      A missing or non-numeric sequence counts as infinity. */
  datatype Reading = Unreadable | Invalid | Record(hypothesis: Option<string>, sequence: Option<real>)

  /** What jaq makes of a line: rejected by its own parser, or values that may end in a runtime error. */
  datatype Outcome = Unparsed | Outputs(values: seq<Value>, failed: bool)

  /** jaq, serde_json and one program, as uninterpreted deterministic functions of a line. */
  datatype Engine = Engine(classify: seq<byte> -> Reading, run: seq<byte> -> Outcome, compiles: bool)

  datatype Scope = Scope(hypotheses: seq<string>, watermark: real)

  datatype Position = Position(byteOffset: nat, ordinal: nat)

  datatype Failure = EvidenceMalformed | QueryFailed | Timeout

  datatype QueryPage = QueryPage(
    results: seq<Value>, scannedRecords: nat, producedValues: nat, next: Option<Position>)

  predicate InScope(scope: Scope, reading: Reading)
    requires reading.Record?
  {
    && reading.sequence.Some? && reading.sequence.value <= scope.watermark
    && (scope.hypotheses == [] || (reading.hypothesis.Some? && reading.hypothesis.value in scope.hypotheses))
  }

  /** Lexicographic order on positions. */
  predicate Later(p: Position, q: Position)
  {
    p.byteOffset < q.byteOffset || (p.byteOffset == q.byteOffset && p.ordinal < q.ordinal)
  }

  // --- the unpaged run -----------------------------------------------------------------------

  /** How a run ends. A deferred error waits behind a full page; an immediate one does not. */
  datatype Stop = Finished | Deferred(failure: Failure) | Immediate(failure: Failure)

  datatype Run = Run(values: seq<Value>, stop: Stop)

  /** Everything the program yields from `pos` on, without the first `skip` outputs of the first line. */
  function RunFrom(e: Engine, scope: Scope, file: seq<byte>, pos: nat, skip: nat): Run
    decreases |file| - pos
  {
    if pos >= |file| then Run([], Finished)
    else
      var end := LineEnd(file, pos);
      var line := TrimEnd(file[pos..end]);
      if line == [] then RunFrom(e, scope, file, end, 0)
      else match e.classify(line)
        case Unreadable => Run([], Deferred(EvidenceMalformed))
        case Invalid => Run([], Deferred(EvidenceMalformed))
        case Record(_, _) =>
          if !InScope(scope, e.classify(line)) then RunFrom(e, scope, file, end, 0)
          else match e.run(line)
            case Unparsed => Run([], Immediate(EvidenceMalformed))
            case Outputs(values, failed) =>
              var kept := values[Min(skip, |values|)..];
              if failed then Run(kept, Deferred(QueryFailed))
              else
                var rest := RunFrom(e, scope, file, end, 0);
                Run(kept + rest.values, rest.stop)
  }

  function RunAt(e: Engine, scope: Scope, file: seq<byte>, p: Position): Run
  {
    RunFrom(e, scope, file, p.byteOffset, p.ordinal)
  }

  /** A result that one call may give at `start`; `timely` says that no deadline check fired. */
  ghost predicate PageAt(
    e: Engine, scope: Scope, file: seq<byte>, start: Position, limit: nat, timely: bool, r: Result<QueryPage, Failure>)
  {
    var all := RunAt(e, scope, file, start);
    match r
    case Err(Timeout) => !timely
    case Err(failure) =>
      if !e.compiles then failure == QueryFailed
      else || (all.stop == Deferred(failure) && |all.values| < limit)
           || (all.stop == Immediate(failure) && |all.values| <= limit)
    case Ok(page) =>
      && e.compiles
      && (page.next.None? ==> page.results == all.values && |page.results| <= limit && all.stop == Finished)
      && (page.next.Some? ==>
            && |page.results| == limit <= |all.values|
            && page.results == all.values[..limit]
            && RunAt(e, scope, file, page.next.value) == Run(all.values[limit..], all.stop)
            && Later(start, page.next.value)
            && (start.byteOffset <= |file| ==> page.next.value.byteOffset <= |file|)
            && (timely ==> |all.values| > limit || all.stop.Deferred?))
  }

  // --- the implementation --------------------------------------------------------------------

  /** The deadline: `expired(n)` is the answer to the n-th check, any answers whatever. */
  class QueryDeadline {
    const expired: nat -> bool
    var checks: nat

    constructor (expired: nat -> bool)
      ensures this.expired == expired && checks == 0
    {
      this.expired := expired;
      checks := 0;
    }

    ghost predicate NeverFires() { forall n :: !expired(n) }

    method Check() returns (fired: bool)
      modifies this
      ensures fired ==> !NeverFires()
    {
      fired := expired(checks);
      checks := checks + 1;
    }
  }

  /** `values` followed by the rest is the whole run. */
  ghost predicate Completes(values: seq<Value>, rest: Run, all: Run)
  {
    values + rest.values == all.values && rest.stop == all.stop
  }

  method RunStreamingPage(
    e: Engine, scope: Scope, file: seq<byte>, byteOffset: nat, outputOrdinal: nat, limit: nat, deadline: QueryDeadline)
    returns (r: Result<QueryPage, Failure>)
    requires limit >= 1
    modifies deadline
    ensures PageAt(e, scope, file, Position(byteOffset, outputOrdinal), limit, deadline.NeverFires(), r)
    ensures r.Ok? ==> |r.value.results| <= r.value.producedValues <= |r.value.results| + 1
    ensures r.Ok? && r.value.producedValues > |r.value.results| ==> r.value.next.Some?
  {
    var late := deadline.Check();
    if late { return Err(Timeout); }
    late := deadline.Check();
    if late { return Err(Timeout); }
    if !e.compiles { return Err(QueryFailed); }
    late := deadline.Check();
    if late { return Err(Timeout); }
    ghost var all := RunFrom(e, scope, file, byteOffset, outputOrdinal);
    var values: seq<Value> := [];
    var scanned, produced := 0, 0;
    var lineStart := byteOffset;
    var firstInput := true;
    while true
      invariant firstInput ==> lineStart == byteOffset && values == []
      invariant !firstInput ==> byteOffset < lineStart <= |file|
      invariant |values| <= limit && produced == |values|
      invariant Completes(values, RunFrom(e, scope, file, lineStart, if firstInput then outputOrdinal else 0), all)
      decreases |file| - lineStart
    {
      late := deadline.Check();
      if late {
        if |values| == limit { return Ok(QueryPage(values, scanned, produced, Some(Position(lineStart, 0)))); }
        return Err(Timeout);
      }
      if lineStart >= |file| { return Ok(QueryPage(values, scanned, produced, None)); }
      var nextLineStart := LineEnd(file, lineStart);
      var line := TrimEnd(file[lineStart..nextLineStart]);
      if line == [] {
        lineStart, firstInput := nextLineStart, false;
        continue;
      }
      var reading := e.classify(line);
      if !reading.Record? {
        if |values| == limit { return Ok(QueryPage(values, scanned, produced, Some(Position(lineStart, 0)))); }
        return Err(EvidenceMalformed);
      }
      if !InScope(scope, reading) {
        lineStart, firstInput := nextLineStart, false;
        continue;
      }
      scanned := scanned + 1;
      var outputs := e.run(line);
      if outputs.Unparsed? { return Err(EvidenceMalformed); }
      var page, failure, after, produced' := EmitOutputs(
        e, scope, file, Position(byteOffset, outputOrdinal), lineStart, firstInput, values, scanned, produced, limit,
        deadline, outputs);
      if page.Some? { return Ok(page.value); }
      if failure.Some? { return Err(failure.value); }
      values, produced := after, produced';
      lineStart, firstInput := nextLineStart, false;
    }
  }

  /** The line at `pos` feeds the program, which answers with `outputs`. */
  ghost predicate Feeds(e: Engine, scope: Scope, file: seq<byte>, pos: nat, outputs: Outcome)
  {
    && pos < |file|
    && var line := TrimEnd(file[pos..LineEnd(file, pos)]);
       line != [] && e.classify(line).Record? && InScope(scope, e.classify(line)) && e.run(line) == outputs
  }

  lemma {:induction false} LineRun(e: Engine, scope: Scope, file: seq<byte>, pos: nat, outputs: Outcome, skip: nat)
    requires Feeds(e, scope, file, pos, outputs) && outputs.Outputs?
    ensures RunFrom(e, scope, file, pos, skip) ==
      var kept := outputs.values[Min(skip, |outputs.values|)..];
      var rest := RunFrom(e, scope, file, LineEnd(file, pos), 0);
      if outputs.failed then Run(kept, Deferred(QueryFailed)) else Run(kept + rest.values, rest.stop)
  {
  }

  /** Passing over output `k` of the line takes exactly that value off the run. */
  lemma PassOutput(e: Engine, scope: Scope, file: seq<byte>, pos: nat, outputs: Outcome, k: nat)
    requires Feeds(e, scope, file, pos, outputs) && outputs.Outputs? && k < |outputs.values|
    ensures var here, next := RunFrom(e, scope, file, pos, k), RunFrom(e, scope, file, pos, k + 1);
            here == Run([outputs.values[k]] + next.values, next.stop)
  {
  }

  /** Keeping output `k` of the line moves it from the rest of the run to the values. */
  lemma KeepOutput(
    e: Engine, scope: Scope, file: seq<byte>, pos: nat, outputs: Outcome, k: nat, values: seq<Value>, all: Run)
    requires Feeds(e, scope, file, pos, outputs) && outputs.Outputs? && k < |outputs.values|
    requires Completes(values, RunFrom(e, scope, file, pos, k), all)
    ensures RunFrom(e, scope, file, pos, k).values != []
    ensures Completes(values + [outputs.values[k]], RunFrom(e, scope, file, pos, k + 1), all)
  {
    PassOutput(e, scope, file, pos, outputs, k);
    hide RunFrom, Feeds;
    var rest := RunFrom(e, scope, file, pos, k + 1).values;
    assert values + ([outputs.values[k]] + rest) == (values + [outputs.values[k]]) + rest;
  }

  /** Past the last output of a line the run goes on with the next one, or ends in the error. */
  lemma {:induction false} LineOver(
    e: Engine, scope: Scope, file: seq<byte>, pos: nat, outputs: Outcome, skip: nat, values: seq<Value>, all: Run)
    requires Feeds(e, scope, file, pos, outputs) && outputs.Outputs? && skip >= |outputs.values|
    requires Completes(values, RunFrom(e, scope, file, pos, skip), all)
    ensures if outputs.failed then
              RunFrom(e, scope, file, pos, skip).stop == Deferred(QueryFailed)
              && values == all.values && all.stop == Deferred(QueryFailed)
            else Completes(values, RunFrom(e, scope, file, LineEnd(file, pos), 0), all)
  {
    LineRun(e, scope, file, pos, outputs, skip);
  }

  /** A full page that hands over at (`pos`, `ordinal`). */
  lemma FullPage(
    e: Engine, scope: Scope, file: seq<byte>, start: Position, limit: nat, timely: bool, page: QueryPage)
    requires e.compiles && |page.results| == limit && page.next.Some?
    requires Completes(page.results, RunAt(e, scope, file, page.next.value), RunAt(e, scope, file, start))
    requires Later(start, page.next.value) && page.next.value.byteOffset <= |file|
    requires timely ==>
      RunAt(e, scope, file, page.next.value).values != [] || RunAt(e, scope, file, page.next.value).stop.Deferred?
    ensures PageAt(e, scope, file, start, limit, timely, Ok(page))
  {
  }

  /** The loop over the outputs of one line, with one value of lookahead behind a full page. */
  method EmitOutputs(
    e: Engine, scope: Scope, file: seq<byte>, start: Position, lineStart: nat, firstInput: bool,
    before: seq<Value>, scanned: nat, producedBefore: nat, limit: nat, deadline: QueryDeadline, outputs: Outcome)
    returns (page: Option<QueryPage>, failure: Option<Failure>, values: seq<Value>, produced: nat)
    requires limit >= 1 && e.compiles && lineStart < |file|
    requires |before| <= limit && producedBefore == |before|
    requires firstInput ==> lineStart == start.byteOffset && before == []
    requires !firstInput ==> start.byteOffset < lineStart
    requires Feeds(e, scope, file, lineStart, outputs) && outputs.Outputs?
    requires Completes(before, RunFrom(e, scope, file, lineStart, if firstInput then start.ordinal else 0),
                       RunAt(e, scope, file, start))
    modifies deadline
    ensures page.Some? ==> PageAt(e, scope, file, start, limit, deadline.NeverFires(), Ok(page.value))
    ensures page.Some? ==> |page.value.results| <= page.value.producedValues <= |page.value.results| + 1
    ensures page.Some? ==> page.value.next.Some?
    ensures failure.Some? ==> PageAt(e, scope, file, start, limit, deadline.NeverFires(), Err(failure.value))
    ensures page.None? && failure.None? ==>
      |values| <= limit && produced == |values|
      && Completes(values, RunFrom(e, scope, file, LineEnd(file, lineStart), 0), RunAt(e, scope, file, start))
  {
    hide RunFrom, Feeds, Completes;
    ghost var all := RunAt(e, scope, file, start);
    var skipOutputs := if firstInput then start.ordinal else 0;
    var ordinal := 0;
    var late;
    page, failure, values, produced := None, None, before, producedBefore;
    while true
      invariant ordinal <= |outputs.values|
      invariant |values| <= limit && produced == |values|
      invariant ordinal < skipOutputs ==> values == []
      invariant firstInput ==> |values| == ordinal - Min(ordinal, skipOutputs)
      invariant Completes(values, RunFrom(e, scope, file, lineStart, Max(ordinal, skipOutputs)), all)
      decreases |outputs.values| - ordinal
    {
      late := deadline.Check();
      if late { break; }
      if ordinal == |outputs.values| && !outputs.failed {  // the outputs are exhausted
        LineOver(e, scope, file, lineStart, outputs, Max(ordinal, skipOutputs), values, all);
        return;
      }
      late := deadline.Check();
      if late { break; }
      if ordinal == |outputs.values| {  // the outputs end in an error
        LineOver(e, scope, file, lineStart, outputs, Max(ordinal, skipOutputs), values, all);
        if |values| < limit {
          failure := Some(QueryFailed);
          return;
        }
        break;
      }
      if ordinal < skipOutputs {
        ordinal := ordinal + 1;
        continue;
      }
      KeepOutput(e, scope, file, lineStart, outputs, ordinal, values, all);
      produced := produced + 1;
      if |values| == limit { break; }
      values := values + [outputs.values[ordinal]];
      ordinal := ordinal + 1;
    }
    if |values| == limit {
      page := Some(QueryPage(values, scanned, produced, Some(Position(lineStart, ordinal))));
      FullPage(e, scope, file, start, limit, deadline.NeverFires(), page.value);
    } else {
      failure := Some(Timeout);
    }
  }
}
