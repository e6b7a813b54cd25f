/** The cursors of a slurp query work: left alone, a query can be followed to its end and leaves no spool behind. */
module SlurpCursors {
  import opened Common
  import opened Lines
  import opened QueryCommand
  import opened SlurpPage
  import opened SlurpHistory
  import QueryHistory
  import QueryPage
  import LogPages

  function NativeOf(jaq: Jaq, answer: Result<SpoolPage, SlurpPage.Failure>): Result<NativePage, NativeFailure>
  {
    if answer.Ok? then Ok(ToNative(jaq, answer.value))
    else Err(match answer.error
             case EvidenceMalformed => NativeFailure.EvidenceMalformed
             case QueryFailed => NativeFailure.QueryFailed
             case Timeout => NativeFailure.Timeout
             case SpoolUnavailable => NativeFailure.SpoolUnavailable)
  }

  /** A slurp command from beginning to end, when no deadline fires, no access fails and the epoch stays: its outcome
      and the spools that are there afterwards. */
  function Taken(
    jaq: Jaq, file: seq<byte>, options: QueryOptions, status: Status, freshSpool: string, before: Spools)
    : (Result<Output, CommandError>, Spools)
  {
    match Prepare(options, Some(status), freshSpool)
    case Err(error) => (Err(error), before)
    case Ok(plan) =>
      var (answer, after) := SlurpAnswer(
        EngineFor(jaq, plan.program), QueryHistory.ScopeOf(plan), file, plan.spoolId, plan.continuation.byteOffset,
        plan.limit, before, false);
      var outcome := Conclude(options.sessionId, plan, NativeOf(jaq, answer), Some(status));
      (outcome, if RemovesSpool(plan, outcome) then after - {plan.spoolId} else after)
  }

  datatype Turn = Turn(
    file: seq<byte>, options: QueryOptions, status: Status, freshSpool: string, before: Spools,
    outcome: Result<Output, CommandError>, left: Spools)

  /** A fresh slurp query of a program, in a session without its spool. */
  ghost predicate Begins(turn: Turn)
  {
    && turn.options.cursor.None? && turn.options.slurp && turn.options.limit >= 1
    && turn.options.requestedProgram != "" && Length(turn.options.requestedProgram) <= 4096
    && turn.freshSpool !in turn.before
  }

  /** The command that carries on, with the cursor of the one before, in the same epoch; the spool is as that left it,
      whatever else happened to the log and to other spools. */
  ghost predicate CarriesOn(first: Turn, turn: Turn, next: Turn)
  {
    && turn.outcome.Ok? && turn.outcome.value.nextCursor.Some?
    && next.options.cursor == turn.outcome.value.nextCursor
    && next.options.sessionId == first.options.sessionId
    && next.options.requestedProgram in {"", first.options.requestedProgram}
    && next.status.evidenceEpoch == first.status.evidenceEpoch
    && (first.freshSpool in turn.left ==>
          first.freshSpool in next.before && next.before[first.freshSpool] == turn.left[first.freshSpool])
  }

  /** Commands of one query, each taken undisturbed. */
  ghost predicate Undisturbed(jaq: Jaq, turns: seq<Turn>)
  {
    && turns != [] && Begins(turns[0])
    && (forall k | 0 <= k < |turns| ::
          var t := turns[k]; (t.outcome, t.left) == Taken(jaq, t.file, t.options, t.status, t.freshSpool, t.before))
    && (forall k, n | 0 <= k < n < |turns| && n == k + 1 :: CarriesOn(turns[0], turns[k], turns[n]))
  }

  /** The outputs of a query that can be spooled and read back. */
  ghost predicate Spoolable(jaq: Jaq, first: Turn, values: seq<Text>)
  {
    && Evaluate(EngineFor(jaq, first.options.requestedProgram),
                QueryPage.Scope([], first.status.watermark as real), first.file) == Ok(values)
    && forall k | 0 <= k < |values| :: OneLine(values[k]) && jaq.validJson(values[k])
  }

  /** What a call that starts with value `i` reads from the spool. */
  function PageAt(values: seq<Text>, i: nat, limit: nat): SpoolPage
    requires i <= |values|
  {
    SpoolPage(values[i..Min(i + limit, |values|)],
              if i + limit < |values| then Some(|Joined(values[..i + limit])|) else None)
  }

  /** The cursor that names the spool and the first value still missing, while there is one. */
  function CursorAt(first: Turn, values: seq<Text>, i: nat): Option<Cursor>
    requires i <= |values|
  {
    var limit := first.options.limit;
    if i + limit >= |values| then None
    else
      Some(Cursor(Spool(|Joined(values[..i + limit])|, first.freshSpool), first.status.evidenceEpoch, [], limit,
                  first.options.requestedProgram, first.options.sessionId, true, first.status.watermark))
  }

  /** What a command that starts with value `i` does. */
  ghost predicate Delivers(jaq: Jaq, first: Turn, turn: Turn, values: seq<Text>, i: nat)
    requires i <= |values|
  {
    var limit, id := first.options.limit, first.freshSpool;
    && turn.outcome == Ok(Output(Decoded(jaq, PageAt(values, i, limit).results), CursorAt(first, values, i)))
    && (id in turn.left <==> i + limit < |values|)
    && (id in turn.left ==> turn.left[id] == Joined(values))
  }

  /** With every value valid JSON a spool is read without fail. */
  lemma {:induction false} ReadsThrough(jaq: Jaq, program: string, values: seq<Text>, i: nat, limit: nat)
    requires i <= |values| && forall k | 0 <= k < |values| :: OneLine(values[k]) && jaq.validJson(values[k])
    ensures SpoolRead(EngineFor(jaq, program), Joined(values), |Joined(values[..i])|, limit)
         == Ok(PageAt(values, i, limit))
  {
    hide Joined, SpoolRead;
    SpoolReadIsPage(EngineFor(jaq, program), Joined(values), |Joined(values[..i])|, values, i, limit);
    NoTimeout(EngineFor(jaq, program), Joined(values), |Joined(values[..i])|, limit);
  }

  lemma {:induction false} NoTimeout(e: SlurpEngine, spool: seq<byte>, pos: nat, limit: nat)
    ensures SpoolRead(e, spool, pos, limit) != Err(SlurpPage.Timeout)
    decreases |spool| - pos
  {
    if pos < |spool| && limit > 0 { NoTimeout(e, spool, LineEnd(spool, pos), limit - 1); }
  }

  lemma {:induction false} PlannedCall(
    jaq: Jaq, file: seq<byte>, program: string, scope: QueryPage.Scope, id: string, values: seq<Text>, i: nat,
    limit: nat, before: Spools)
    requires i <= |values| && forall k | 0 <= k < |values| :: OneLine(values[k]) && jaq.validJson(values[k])
    requires if id in before then before[id] == Joined(values)
             else i == 0 && Evaluate(EngineFor(jaq, program), scope, file) == Ok(values)
    ensures SlurpAnswer(EngineFor(jaq, program), scope, file, id, |Joined(values[..i])|, limit, before, false)
         == (Ok(PageAt(values, i, limit)), before[id := Joined(values)])
  {
    ReadsThrough(jaq, program, values, i, limit);
    NothingJoined(values);
    hide Joined, SpoolRead, Evaluate, EngineFor, Inputs;
    if id in before {
      assert before[id := Joined(values)] == before;
    } else {
      BuiltFrom(EngineFor(jaq, program), scope, file, values);
    }
  }

  /** The effect of a command whose plan is known, on a spool that holds the values. */
  lemma {:induction false} PlannedTurn(jaq: Jaq, first: Turn, turn: Turn, plan: Plan, values: seq<Text>, i: nat)
    requires i <= |values| && Spoolable(jaq, first, values) && first.options.limit >= 1
    requires (turn.outcome, turn.left)
             == Taken(jaq, turn.file, turn.options, turn.status, turn.freshSpool, turn.before)
    requires Prepare(turn.options, Some(turn.status), turn.freshSpool) == Ok(plan)
    requires plan.program == first.options.requestedProgram && plan.slurp && plan.hypotheses == []
    requires plan.watermark == first.status.watermark && plan.limit == first.options.limit
    requires plan.spoolId == first.freshSpool && plan.evidenceEpoch == first.status.evidenceEpoch
    requires turn.status.evidenceEpoch == plan.evidenceEpoch && turn.options.sessionId == first.options.sessionId
    requires plan.continuation.byteOffset == |Joined(values[..i])|
    requires var id := first.freshSpool;
             if id in turn.before then turn.before[id] == Joined(values) else i == 0 && turn.file == first.file
    ensures Delivers(jaq, first, turn, values, i)
  {
    PlannedCall(jaq, turn.file, plan.program, QueryHistory.ScopeOf(plan), plan.spoolId, values, i, plan.limit,
                turn.before);
    PlannedCursor(first, plan, values, i);
    hide Joined, Evaluate, Decoded, EngineFor, Prepare, SlurpAnswer, Taken, Spoolable, PageAt, NextOf, CursorAt;
    TakenFrom(jaq, turn.file, turn.options, turn.status, turn.freshSpool, turn.before, plan,
              PageAt(values, i, plan.limit), turn.before[plan.spoolId := Joined(values)]);
    SpoolLeft(turn.before, plan.spoolId, Joined(values), turn.left, i + plan.limit >= |values|);
  }

  lemma PlannedCursor(first: Turn, plan: Plan, values: seq<Text>, i: nat)
    requires i <= |values| && plan.program == first.options.requestedProgram && plan.hypotheses == []
    requires plan.watermark == first.status.watermark && plan.limit == first.options.limit
    requires plan.spoolId == first.freshSpool && plan.evidenceEpoch == first.status.evidenceEpoch
    ensures NextOf(plan, first.options.sessionId, PageAt(values, i, plan.limit)) == CursorAt(first, values, i)
    ensures CursorAt(first, values, i).None? <==> i + plan.limit >= |values|
  {
    hide Joined;
  }

  lemma SpoolLeft(before: Spools, id: string, spool: seq<byte>, left: Spools, last: bool)
    requires left == if last then before[id := spool] - {id} else before[id := spool]
    ensures id in left <==> !last
    ensures !last ==> left[id] == spool
  {
  }

  function NextOf(plan: Plan, sessionId: string, page: SpoolPage): Option<Cursor>
  {
    if page.next.None? then None
    else
      Some(Cursor(Spool(page.next.value, plan.spoolId), plan.evidenceEpoch, plan.hypotheses, plan.limit, plan.program,
                  sessionId, true, plan.watermark))
  }

  /** What a command makes of a page. */
  lemma TakenFrom(
    jaq: Jaq, file: seq<byte>, options: QueryOptions, status: Status, freshSpool: string, before: Spools, plan: Plan,
    page: SpoolPage, after: Spools)
    requires Prepare(options, Some(status), freshSpool) == Ok(plan) && plan.slurp
    requires status.evidenceEpoch == plan.evidenceEpoch
    requires SlurpAnswer(EngineFor(jaq, plan.program), QueryHistory.ScopeOf(plan), file, plan.spoolId,
                         plan.continuation.byteOffset, plan.limit, before, false) == (Ok(page), after)
    ensures var next := NextOf(plan, options.sessionId, page);
            Taken(jaq, file, options, status, freshSpool, before)
            == (Ok(Output(Decoded(jaq, page.results), next)), if next.None? then after - {plan.spoolId} else after)
  {
    hide EngineFor, Prepare, SlurpAnswer, Decoded;
  }

  lemma {:induction false} BuiltFrom(e: SlurpEngine, scope: QueryPage.Scope, file: seq<byte>, values: seq<Text>)
    requires Evaluate(e, scope, file) == Ok(values)
    ensures Built(e, scope, file, false) == Ok(Joined(values))
  {
  }

  lemma FirstTurn(jaq: Jaq, turns: seq<Turn>, values: seq<Text>)
    requires Undisturbed(jaq, turns) && Spoolable(jaq, turns[0], values)
    ensures Delivers(jaq, turns[0], turns[0], values, 0)
  {
    var first := turns[0];
    NothingJoined(values);
    hide Joined, Evaluate, Taken, Delivers, Decoded, EngineFor;
    var plan := Plan(first.options.requestedProgram, true, [], first.status.watermark, first.options.limit, FROM_START,
                     first.freshSpool, first.status.evidenceEpoch);
    PlannedTurn(jaq, first, first, plan, values, 0);
  }

  lemma NextTurn(jaq: Jaq, first: Turn, turn: Turn, next: Turn, values: seq<Text>, i: nat)
    requires Begins(first) && CarriesOn(first, turn, next) && Spoolable(jaq, first, values)
    requires (next.outcome, next.left)
             == Taken(jaq, next.file, next.options, next.status, next.freshSpool, next.before)
    requires i <= |values| && Delivers(jaq, first, turn, values, i)
    ensures i + first.options.limit < |values| && Delivers(jaq, first, next, values, i + first.options.limit)
  {
    hide Joined, Evaluate, Taken, Decoded, EngineFor;
    ProgramLength(first.options.requestedProgram);
    ProgramLength(next.options.requestedProgram);
    hide Length;
    var offset := |Joined(values[..i + first.options.limit])|;
    var plan := Plan(first.options.requestedProgram, true, [], first.status.watermark, first.options.limit,
                     Spool(offset, first.freshSpool), first.freshSpool, first.status.evidenceEpoch);
    PlannedTurn(jaq, first, next, plan, values, i + first.options.limit);
  }

  /** Every cursor of an undisturbed slurp query works: command number `k` succeeds with the values from number
      `k` times the limit on. It returns a cursor and keeps the spool exactly while values remain; the last page leaves
      no spool. */
  lemma {:induction false} EveryCursorWorks(jaq: Jaq, turns: seq<Turn>, values: seq<Text>, k: nat)
    requires Undisturbed(jaq, turns) && Spoolable(jaq, turns[0], values) && k < |turns|
    ensures var i := LogPages.OffsetOf(k, turns[0].options.limit);
            i <= |values| && Delivers(jaq, turns[0], turns[k], values, i)
  {
    hide Delivers, Spoolable, Taken;
    LogPages.StartsAtZero(turns[0].options.limit);
    if k == 0 {
      FirstTurn(jaq, turns, values);
    } else {
      EveryCursorWorks(jaq, turns, values, k - 1);
      LogPages.NextOffset(k - 1, turns[0].options.limit);
      hide LogPages.OffsetOf;
      NextTurn(jaq, turns[0], turns[k - 1], turns[k], values, LogPages.OffsetOf(k - 1, turns[0].options.limit));
    }
  }
}
