/** Whole histories of slurp queries: pages of one spooled evaluation, taken while events arrive and resets run. */
module SlurpHistory {
  import opened Common
  import opened Lines
  import opened QueryCommand
  import opened SessionSystem
  import opened SlurpPage
  import QueryPage
  import QueryHistory
  import opened QueryMeaning

  /** serde_json and jaq, and how the text of an output becomes a row. */
  datatype Jaq = Jaq(
    classify: Classifier, parses: seq<byte> -> bool, run: (string, seq<seq<byte>>) -> SlurpOutcome,
    compiles: string -> bool, validJson: Text -> bool, decode: Text -> string)

  function EngineFor(jaq: Jaq, program: string): SlurpEngine
  {
    SlurpEngine(jaq.classify, jaq.parses, (inputs: seq<seq<byte>>) => jaq.run(program, inputs), jaq.compiles(program),
                jaq.validJson)
  }

  function Decoded(jaq: Jaq, values: seq<Text>): seq<string>
  {
    seq(|values|, i requires 0 <= i < |values| => jaq.decode(values[i]))
  }

  function ToNative(jaq: Jaq, page: SpoolPage): NativePage
  {
    NativePage(Decoded(jaq, page.results), page.next, None)
  }

  /** A slurp command that succeeded: status read at `pre`, the native call number `call` with the log opened at
      `openedAt` and read up to its state at `read`, status read again at `post`. */
  datatype Served = Served(
    options: QueryOptions, freshSpool: string, pre: nat, openedAt: nat, read: nat, post: nat, call: nat, plan: Plan,
    output: Output)

  ghost predicate ServedOk(jaq: Jaq, b: Behaviour, h: seq<Call>, s: Served)
  {
    && s.pre <= s.openedAt <= s.read <= s.post < |b.states| && s.call < |h|
    && b.states[s.pre].Free() && b.states[s.post].Free()
    && Prepare(s.options, Some(QueryHistory.StatusOf(b.states[s.pre])), s.freshSpool) == Ok(s.plan) && s.plan.slurp
    && var call := h[s.call];
       && call.e == EngineFor(jaq, s.plan.program) && call.scope == QueryHistory.ScopeOf(s.plan)
       && call.file == Bytes(SeenThrough(b, s.openedAt, s.read))
       && call.spoolId == s.plan.spoolId && call.limit == s.plan.limit
       && call.offset == s.plan.continuation.byteOffset
       && call.r.Ok?
       && Conclude(s.options.sessionId, s.plan, Ok(ToNative(jaq, call.r.value)),
                   Some(QueryHistory.StatusOf(b.states[s.post]))) == Ok(s.output)
  }

  /** A fresh query that draws a new spool, and then one command per returned cursor, until a page returns none. */
  ghost predicate FollowsCursors(h: seq<Call>, served: seq<Served>)
    requires forall k | 0 <= k < |served| :: served[k].call < |h|
  {
    && served != [] && served[0].options.cursor.None? && Fresh(h, served[0].call)
    && (forall k, n | 0 <= k < n < |served| && n == k + 1 ::
          && served[k].output.nextCursor.Some? && served[n].options.cursor == served[k].output.nextCursor
          && served[k].call < served[n].call)
    && served[|served| - 1].output.nextCursor.None?
  }

  ghost predicate Walk(jaq: Jaq, b: Behaviour, h: seq<Call>, served: seq<Served>)
  {
    && Valid(jaq.classify, b) && History(h)
    && (forall k | 0 <= k < |served| :: ServedOk(jaq, b, h, served[k]))
    && (forall k | 0 <= k < |served| :: served[k].call < |h|)
    && FollowsCursors(h, served)
  }

  function Calls(served: seq<Served>): seq<nat>
  {
    seq(|served|, k requires 0 <= k < |served| => served[k].call)
  }

  function AllRows(served: seq<Served>): seq<string>
  {
    if served == [] then [] else AllRows(served[..|served| - 1]) + served[|served| - 1].output.rows
  }

  // --- growth outside the scope ----------------------------------------------------------------------

  lemma StripsToText(text: seq<byte>)
    requires OneLine(text)
    ensures StripLine(text + [LF]) == text
  {
  }

  /** Entries above the watermark are no inputs. */
  lemma {:induction false} NewerEntriesAreNoInputs(
    e: SlurpEngine, scope: QueryPage.Scope, log: seq<Entry>, i: nat)
    requires i <= |log|
    requires forall k | i <= k < |log| :: Stored(e.classify, log[k]) && log[k].sequence as real > scope.watermark
    ensures Inputs(e, scope, Bytes(log), |Bytes(log[..i])|) == Ok([])
    decreases |log| - i
  {
    hide Joined;
    TextsPrefix(log, i);
    if i == |log| {
      assert log[..i] == log;
    } else {
      TextsPrefix(log, i + 1);
      JoinedLine(Texts(log), i);
      StripsToText(log[i].text);
      NewerEntriesAreNoInputs(e, scope, log, i + 1);
    }
  }

  /** Lines that give no inputs can follow without changing the inputs. */
  lemma {:induction false} InputsIgnoreGrowth(
    e: SlurpEngine, scope: QueryPage.Scope, earlier: seq<byte>, later: seq<byte>, pos: nat)
    requires Complete(earlier) && earlier <= later && pos <= |earlier|
    requires Inputs(e, scope, later, |earlier|) == Ok([])
    ensures Inputs(e, scope, later, pos) == Inputs(e, scope, earlier, pos)
    decreases |earlier| - pos
  {
    if pos < |earlier| {
      hide StripLine, QueryPage.InScope;
      var more := later[|earlier|..];
      assert later == earlier + more;
      LineEndStable(earlier, more, pos);
      var end := LineEnd(earlier, pos);
      assert later[pos..end] == earlier[pos..end];
      InputsIgnoreGrowth(e, scope, earlier, later, end);
    }
  }

  /** A log grown by newer entries only evaluates as before. */
  lemma EvaluationIgnoresGrowth(e: SlurpEngine, scope: QueryPage.Scope, earlier: seq<Entry>, later: seq<Entry>)
    requires earlier <= later
    requires forall k | |earlier| <= k < |later| ::
      Stored(e.classify, later[k]) && later[k].sequence as real > scope.watermark
    ensures Evaluate(e, scope, Bytes(later)) == Evaluate(e, scope, Bytes(earlier))
  {
    hide Joined, Inputs;
    assert later[..|earlier|] == earlier;
    TextsPrefix(later, |earlier|);
    JoinedPrefix(Texts(later), |earlier|);
    JoinedComplete(Texts(earlier));
    NewerEntriesAreNoInputs(e, scope, later, |earlier|);
    InputsIgnoreGrowth(e, scope, Bytes(earlier), Bytes(later), 0);
  }

  // --- the commands as native calls -------------------------------------------------------------------

  /** What a successful command asked its native call for, and what it returned. */
  lemma CommandMakesCall(jaq: Jaq, b: Behaviour, h: seq<Call>, s: Served)
    requires ServedOk(jaq, b, h, s)
    ensures s.call < |h| && h[s.call].r.Ok? && s.plan.slurp
    ensures h[s.call].e == EngineFor(jaq, s.plan.program) && h[s.call].offset == s.plan.continuation.byteOffset
    ensures h[s.call].spoolId == s.plan.spoolId && h[s.call].limit == s.plan.limit
    ensures s.output.rows == Decoded(jaq, h[s.call].r.value.results)
    ensures s.output.nextCursor.None? <==> h[s.call].r.value.next.None?
  {
    hide Bytes, Highest, EngineFor, Decoded, Prepare;
  }

  /** The next command continues the query of the one before at the offset that it returned. */
  lemma CommandContinues(jaq: Jaq, b: Behaviour, h: seq<Call>, s: Served, next: Served)
    requires ServedOk(jaq, b, h, s) && ServedOk(jaq, b, h, next)
    requires s.output.nextCursor.Some? && next.options.cursor == s.output.nextCursor
    ensures next.plan == s.plan.(continuation := next.plan.continuation)
    ensures s.call < |h| && h[s.call].r.Ok? && next.call < |h|
    ensures h[s.call].r.value.next == Some(h[next.call].offset)
  {
    hide Bytes, Highest, EngineFor, Decoded;
  }

  lemma CallsAreAWalk(jaq: Jaq, b: Behaviour, h: seq<Call>, served: seq<Served>)
    requires Walk(jaq, b, h, served)
    ensures WalkOf(h, Calls(served))
  {
    hide Valid, History, Fresh, ServedOk, EngineFor;
    forall k | 0 <= k < |served| ensures h[served[k].call].r.Ok? {
      CommandMakesCall(jaq, b, h, served[k]);
    }
    forall n, m | 0 <= n < m < |served| && m == n + 1
      ensures h[served[m].call].spoolId == h[served[n].call].spoolId
      ensures h[served[n].call].r.value.next == Some(h[served[m].call].offset)
      ensures h[served[m].call].e == h[served[n].call].e && h[served[m].call].limit == h[served[n].call].limit
    {
      CommandMakesCall(jaq, b, h, served[n]);
      CommandMakesCall(jaq, b, h, served[m]);
      CommandContinues(jaq, b, h, served[n], served[m]);
    }
    CommandMakesCall(jaq, b, h, served[|served| - 1]);
  }

  lemma {:induction false} RowsAgree(jaq: Jaq, b: Behaviour, h: seq<Call>, served: seq<Served>)
    requires forall k | 0 <= k < |served| :: ServedOk(jaq, b, h, served[k])
    ensures forall k | 0 <= k < |served| :: served[k].call < |h| && h[served[k].call].r.Ok?
    ensures AllRows(served) == Decoded(jaq, WalkRows(h, Calls(served)))
  {
    hide ServedOk, EngineFor;
    forall k | 0 <= k < |served| ensures served[k].call < |h| && h[served[k].call].r.Ok? {
      CommandMakesCall(jaq, b, h, served[k]);
    }
    if served != [] {
      var last := |served| - 1;
      CommandMakesCall(jaq, b, h, served[last]);
      RowsAgree(jaq, b, h, served[..last]);
      assert Calls(served)[..last] == Calls(served[..last]);
    }
  }

  /** A slurp walk of successful commands to its end returns the outputs of one evaluation of the program over the
      log as it was at the first command's preflight, whatever ingestion, restarts, resets and other queries do,
      provided that during the first command no reset fails after clearing the log and no clearing of a failed
      reset lands. */
  lemma {:induction false} SlurpWalkIsOneLog(jaq: Jaq, b: Behaviour, h: seq<Call>, served: seq<Served>)
    requires Walk(jaq, b, h, served) && NoLoss(b, served[0].pre, served[0].post)
    ensures var log := b.states[served[0].pre].Log();
            var evaluated := Evaluate(EngineFor(jaq, served[0].options.requestedProgram),
                                      QueryPage.Scope([], Highest(log) as real), Bytes(log));
            evaluated.Ok? && AllRows(served) == Decoded(jaq, evaluated.value)
    ensures var outcome := jaq.run(served[0].options.requestedProgram, Texts(b.states[served[0].pre].Log()));
            !outcome.failed && AllRows(served) == Decoded(jaq, outcome.values)
  {
    hide Texts, Stored;
    hide Valid, History, Bytes, Highest, Evaluate, WalkOf, WalkRows, NoLoss, Decoded;
    var first := served[0];
    assert ServedOk(jaq, b, h, first);
    CallsAreAWalk(jaq, b, h, served);
    SlurpWalkIsOneEvaluation(h, Calls(served));
    RowsAgree(jaq, b, h, served);
    SeenIsGrown(jaq.classify, b, first.pre, first.openedAt, first.read, first.post);
    var log, seen := b.states[first.pre].Log(), SeenThrough(b, first.openedAt, first.read);
    EvaluationIgnoresGrowth(EngineFor(jaq, first.plan.program), QueryHistory.ScopeOf(first.plan), log, seen);
    forall i | 0 <= i < |log| ensures Stored(jaq.classify, log[i]) { assert log[i] == seen[i]; }
    FreshSlurpCoversTheLog(EngineFor(jaq, first.plan.program), log);
  }
}
