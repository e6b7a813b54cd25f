/** The cursors of a streaming query work: without deadlines and resets, a query can be followed to its end. */
module StreamCursors {
  import opened Common
  import opened QueryPage
  import opened QueryChains
  import opened QueryCommand
  import opened QueryHistory
  import LogPages

  function NativeOf(r: Result<QueryPage, Failure>): Result<NativePage, NativeFailure>
  {
    if r.Ok? then Ok(ToNative(r.value)) else Err(NativeError(r.error))
  }

  function NativeError(failure: Failure): NativeFailure
  {
    match failure
    case EvidenceMalformed => NativeFailure.EvidenceMalformed
    case QueryFailed => NativeFailure.QueryFailed
    case Timeout => NativeFailure.Timeout
  }

  /** One command: what was asked for, the log it read, and what came out. */
  datatype Turn = Turn(
    file: seq<byte>, options: QueryOptions, status: Status, freshSpool: string, outcome: Result<Output, CommandError>)

  /** A streaming command from beginning to end, when no deadline fires and the epoch stays. */
  ghost predicate Taken(jaq: Jaq, t: Turn)
  {
    match Prepare(t.options, Some(t.status), t.freshSpool)
    case Err(error) => t.outcome == Err(error)
    case Ok(plan) =>
      exists r ::
        && PageAt(EngineFor(jaq, plan.program), ScopeOf(plan), t.file, StartOf(plan), plan.limit, true, r)
        && t.outcome == Conclude(t.options.sessionId, plan, NativeOf(r), Some(t.status))
  }

  /** A fresh streaming query of a program that compiles. */
  ghost predicate Begins(jaq: Jaq, t: Turn)
  {
    && t.options.cursor.None? && !t.options.slurp && t.options.limit >= 1
    && t.options.requestedProgram != "" && Length(t.options.requestedProgram) <= 4096
    && jaq.compiles(t.options.requestedProgram)
  }

  function EngineOf(jaq: Jaq, first: Turn): Engine { EngineFor(jaq, first.options.requestedProgram) }

  function Asked(first: Turn): Scope { Scope([], first.status.watermark as real) }

  /** The command that carries on, with the cursor of the one before, in the same epoch. The log may have grown. */
  ghost predicate CarriesOn(jaq: Jaq, first: Turn, turn: Turn, next: Turn)
  {
    && turn.outcome.Ok? && turn.outcome.value.nextCursor.Some?
    && next.options.cursor == turn.outcome.value.nextCursor
    && next.options.sessionId == first.options.sessionId
    && next.options.requestedProgram in {"", first.options.requestedProgram}
    && next.status.evidenceEpoch == first.status.evidenceEpoch
    && GrowsUnseen(EngineOf(jaq, first), Asked(first), turn.file, next.file)
  }

  ghost predicate Undisturbed(jaq: Jaq, turns: seq<Turn>)
  {
    && turns != [] && Begins(jaq, turns[0])
    && (forall k | 0 <= k < |turns| :: Taken(jaq, turns[k]))
    && (forall k, n | 0 <= k < n < |turns| && n == k + 1 :: CarriesOn(jaq, turns[0], turns[k], turns[n]))
  }

  /** What a command does that is to deliver the values from number `i` on: a full page and a cursor while more is to
      come, be it an error that can wait; the rest when there is nothing behind it; otherwise the error. */
  ghost predicate Delivers(limit: nat, all: Run, i: nat, outcome: Result<Output, CommandError>)
  {
    && i <= |all.values|
    && if i + limit < |all.values| || (i + limit == |all.values| && all.stop.Deferred?) then
         outcome.Ok? && outcome.value.rows == all.values[i..i + limit] && outcome.value.nextCursor.Some?
       else if all.stop.Finished? then
         outcome == Ok(Output(all.values[i..], None))
       else
         outcome == Err(Native(NativeError(all.stop.failure)))
  }

  /** The command runs the first one's query, and value `i` comes next. */
  ghost predicate Stands(jaq: Jaq, first: Turn, t: Turn, all: Run, i: nat, plan: Plan)
  {
    && Prepare(t.options, Some(t.status), t.freshSpool) == Ok(plan)
    && plan.program == first.options.requestedProgram && !plan.slurp && plan.hypotheses == []
    && plan.watermark == first.status.watermark && plan.limit == first.options.limit >= 1
    && plan.evidenceEpoch == first.status.evidenceEpoch == t.status.evidenceEpoch
    && t.options.sessionId == first.options.sessionId && plan.continuation.Stream?
    && i <= |all.values| && StartOf(plan).byteOffset <= |t.file|
    && RunAt(EngineOf(jaq, first), Asked(first), t.file, StartOf(plan)) == Run(all.values[i..], all.stop)
  }

  lemma FirstStands(jaq: Jaq, first: Turn, plan: Plan)
    requires Begins(jaq, first)
    requires plan == Plan(first.options.requestedProgram, false, [], first.status.watermark, first.options.limit,
                          FROM_START, first.freshSpool, first.status.evidenceEpoch)
    ensures Stands(jaq, first, first, RunFrom(EngineOf(jaq, first), Asked(first), first.file, 0, 0), 0, plan)
  {
    hide RunFrom, Length;
  }

  lemma StandingDelivers(jaq: Jaq, first: Turn, t: Turn, all: Run, i: nat, plan: Plan)
    returns (r: Result<QueryPage, Failure>)
    requires Taken(jaq, t) && Stands(jaq, first, t, all, i, plan) && jaq.compiles(plan.program)
    ensures PageAt(EngineOf(jaq, first), Asked(first), t.file, StartOf(plan), plan.limit, true, r)
    ensures t.outcome == Conclude(t.options.sessionId, plan, NativeOf(r), Some(t.status))
    ensures Delivers(plan.limit, all, i, t.outcome)
  {
    hide RunFrom, Prepare;
    r :| && PageAt(EngineFor(jaq, plan.program), ScopeOf(plan), t.file, StartOf(plan), plan.limit, true, r)
         && t.outcome == Conclude(t.options.sessionId, plan, NativeOf(r), Some(t.status));
    TimelyPagesAreDetermined(EngineOf(jaq, first), Asked(first), t.file, StartOf(plan), plan.limit, r);
  }

  /** Behind a page with a cursor the next command stands at the first value not delivered. */
  lemma NextStands(
    jaq: Jaq, first: Turn, t: Turn, next: Turn, all: Run, i: nat, plan: Plan,
    r: Result<QueryPage, Failure>) returns (after: Plan)
    requires Begins(jaq, first) && CarriesOn(jaq, first, t, next) && Stands(jaq, first, t, all, i, plan)
    requires PageAt(EngineOf(jaq, first), Asked(first), t.file, StartOf(plan), plan.limit, true, r)
    requires t.outcome == Conclude(t.options.sessionId, plan, NativeOf(r), Some(t.status))
    ensures Stands(jaq, first, next, all, i + plan.limit, after)
  {
    ProgramLength(first.options.requestedProgram);
    ProgramLength(next.options.requestedProgram);
    hide RunFrom, Length, Invisible;
    var p := r.value.next.value;
    RunIgnoresGrowth(EngineOf(jaq, first), Asked(first), t.file, next.file, p.byteOffset, p.ordinal);
    after := plan.(continuation := Stream(p.byteOffset, p.ordinal), spoolId := next.freshSpool);
  }

  lemma {:induction false} EveryTurnStands(jaq: Jaq, turns: seq<Turn>, k: nat) returns (plan: Plan)
    requires Undisturbed(jaq, turns) && k < |turns|
    ensures Stands(jaq, turns[0], turns[k], RunFrom(EngineOf(jaq, turns[0]), Asked(turns[0]), turns[0].file, 0, 0),
                   LogPages.OffsetOf(k, turns[0].options.limit), plan)
  {
    hide Stands, Taken, CarriesOn, RunFrom, Delivers, PageAt;
    var first := turns[0];
    var all := RunFrom(EngineOf(jaq, first), Asked(first), first.file, 0, 0);
    LogPages.StartsAtZero(first.options.limit);
    if k == 0 {
      plan := Plan(first.options.requestedProgram, false, [], first.status.watermark, first.options.limit, FROM_START,
                   first.freshSpool, first.status.evidenceEpoch);
      FirstStands(jaq, first, plan);
    } else {
      var before := EveryTurnStands(jaq, turns, k - 1);
      LogPages.NextOffset(k - 1, first.options.limit);
      var i := LogPages.OffsetOf(k - 1, first.options.limit);
      PlanFits(jaq, first, turns[k - 1], all, i, before);
      var r := StandingDelivers(jaq, first, turns[k - 1], all, i, before);
      plan := NextStands(jaq, first, turns[k - 1], turns[k], all, i, before, r);
    }
  }

  /** Every cursor of an undisturbed streaming query works: command number `k` delivers from number `k` times the limit
      on what the program yields over the log of the first command. */
  lemma {:induction false} EveryStreamCursorWorks(jaq: Jaq, turns: seq<Turn>, k: nat)
    requires Undisturbed(jaq, turns) && k < |turns|
    ensures var first := turns[0].options;
            var all := RunFrom(EngineFor(jaq, first.requestedProgram), Scope([], turns[0].status.watermark as real),
                               turns[0].file, 0, 0);
            Delivers(first.limit, all, LogPages.OffsetOf(k, first.limit), turns[k].outcome)
  {
    hide Stands, Taken, CarriesOn, RunFrom, Delivers, PageAt;
    var first := turns[0];
    var all := RunFrom(EngineOf(jaq, first), Asked(first), first.file, 0, 0);
    var plan := EveryTurnStands(jaq, turns, k);
    PlanFits(jaq, first, turns[k], all, LogPages.OffsetOf(k, first.options.limit), plan);
    var _ := StandingDelivers(jaq, first, turns[k], all, LogPages.OffsetOf(k, first.options.limit), plan);
  }

  lemma PlanFits(jaq: Jaq, first: Turn, t: Turn, all: Run, i: nat, plan: Plan)
    requires Stands(jaq, first, t, all, i, plan)
    ensures plan.program == first.options.requestedProgram && plan.limit == first.options.limit
  {
  }
}
