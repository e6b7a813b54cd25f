/** `queryCommand`: preflight status, cursor checks, one native call, postflight status, next cursor. */
module QueryCommand {
  import opened Common
  import QueryPage

  datatype Continuation = Stream(byteOffset: nat, outputOrdinal: nat) | Spool(byteOffset: nat, spoolId: string)

  /** The authenticated payload of a query cursor. */
  datatype Cursor = Cursor(
    continuation: Continuation, evidenceEpoch: string, hypotheses: seq<string>, limit: nat, program: string,
    sessionId: string, slurp: bool, watermark: nat)

  /** `requestedProgram` is empty when the command line gave none. */
  datatype QueryOptions = QueryOptions(
    sessionId: string, requestedProgram: string, cursor: Option<Cursor>, slurp: bool, limit: nat)

  /** What the daemon's status request reports, read under the session lock. */
  datatype Status = Status(evidenceEpoch: string, watermark: nat)

  /** Everything the native call and the next cursor need. */
  datatype Plan = Plan(
    program: string, slurp: bool, hypotheses: seq<string>, watermark: nat, limit: nat, continuation: Continuation,
    spoolId: string, evidenceEpoch: string)

  datatype NativeFailure = EvidenceMalformed | QueryFailed | Timeout | SpoolUnavailable

  datatype NativePage = NativePage(
    results: seq<string>, nextByteOffset: Option<nat>, nextOutputOrdinal: Option<nat>)

  datatype Output = Output(rows: seq<string>, nextCursor: Option<Cursor>)

  datatype CommandError =
    | InvalidArguments | SessionNotFound | InvalidCursor | CursorScope | CursorStale | ProgramMismatch
    | Native(failure: NativeFailure)

  const FROM_START := Stream(0, 0)

  /** The shape checks of `verifyQueryCursor`. */
  predicate WellFormed(c: Cursor)
  {
    c.limit >= 1 && 1 <= Length(c.program) <= 4096 && (c.slurp <==> c.continuation.Spool?)
  }

  function Prepare(options: QueryOptions, preflight: Option<Status>, freshSpool: string): Result<Plan, CommandError>
  {
    if (options.requestedProgram == "" && options.cursor.None?) || Length(options.requestedProgram) > 4096 then
      Err(InvalidArguments)
    else if preflight.None? then Err(SessionNotFound)
    else match options.cursor
      case None =>
        Ok(Plan(options.requestedProgram, options.slurp, [], preflight.value.watermark, options.limit, FROM_START,
                freshSpool, preflight.value.evidenceEpoch))
      case Some(c) =>
        if !WellFormed(c) then Err(InvalidCursor)
        else if c.sessionId != options.sessionId then Err(CursorScope)
        else if c.evidenceEpoch != preflight.value.evidenceEpoch then Err(CursorStale)
        else if options.requestedProgram != "" && options.requestedProgram != c.program then Err(ProgramMismatch)
        else
          Ok(Plan(c.program, c.slurp, c.hypotheses, c.watermark, c.limit, c.continuation,
                  if c.continuation.Spool? then c.continuation.spoolId else freshSpool, c.evidenceEpoch))
  }

  function NextContinuation(plan: Plan, page: NativePage): Option<Continuation>
  {
    if page.nextByteOffset.None? then None
    else if plan.slurp then Some(Spool(page.nextByteOffset.value, plan.spoolId))
    else Some(Stream(page.nextByteOffset.value,
                     if page.nextOutputOrdinal.Some? then page.nextOutputOrdinal.value else 0))
  }

  function Conclude(
    sessionId: string, plan: Plan, native: Result<NativePage, NativeFailure>, postflight: Option<Status>)
    : Result<Output, CommandError>
  {
    if postflight.None? || postflight.value.evidenceEpoch != plan.evidenceEpoch then Err(CursorStale)
    else if native.Err? then Err(Native(native.error))
    else
      var next := NextContinuation(plan, native.value);
      Ok(Output(
        native.value.results,
        if next.None? then None
        else Some(Cursor(next.value, plan.evidenceEpoch, plan.hypotheses, plan.limit, plan.program, sessionId,
                         plan.slurp, plan.watermark))))
  }

  /** Whether the command deletes the spool file before it returns `outcome`. */
  predicate RemovesSpool(plan: Plan, outcome: Result<Output, CommandError>)
  {
    plan.slurp &&
    (if outcome.Ok? then outcome.value.nextCursor.None?
     else outcome.error in {CursorStale, Native(EvidenceMalformed), Native(Timeout)})
  }

  lemma {:induction false} ProgramLength(program: string)
    ensures Length(program) >= 1 <==> program != ""
  {
    LengthBounds(program);
  }

  /** The phases before the native call. */
  method Preflight(options: QueryOptions, preflight: Option<Status>, freshSpool: string)
    returns (r: Result<Plan, CommandError>)
    ensures r == Prepare(options, preflight, freshSpool)
    // it goes on exactly with a program of bounded length or a cursor of this session, epoch and program
    ensures r.Ok? <==>
      && (options.requestedProgram != "" || options.cursor.Some?) && Length(options.requestedProgram) <= 4096
      && preflight.Some?
      && (options.cursor.Some? ==>
            var c := options.cursor.value;
            && c.limit >= 1 && c.program != "" && Length(c.program) <= 4096 && (c.slurp <==> c.continuation.Spool?)
            && c.sessionId == options.sessionId && c.evidenceEpoch == preflight.value.evidenceEpoch
            && options.requestedProgram in {"", c.program})
    // a refusal names what is wrong
    ensures r.Err? ==>
      match r.error
      case InvalidArguments =>
        (options.requestedProgram == "" && options.cursor.None?) || Length(options.requestedProgram) > 4096
      case SessionNotFound => preflight.None?
      case InvalidCursor =>
        options.cursor.Some?
        && var c := options.cursor.value;
           c.limit == 0 || c.program == "" || Length(c.program) > 4096 || c.slurp != c.continuation.Spool?
      case CursorScope => options.cursor.Some? && options.cursor.value.sessionId != options.sessionId
      case CursorStale =>
        options.cursor.Some? && preflight.Some?
        && options.cursor.value.evidenceEpoch != preflight.value.evidenceEpoch
      case ProgramMismatch =>
        options.cursor.Some? && options.requestedProgram !in {"", options.cursor.value.program}
      case Native(_) => false
    // the plan is the fresh query, or the cursor's
    ensures r.Ok? && options.cursor.None? ==>
      r.value == Plan(options.requestedProgram, options.slurp, [], preflight.value.watermark, options.limit,
                      Stream(0, 0), freshSpool, preflight.value.evidenceEpoch)
    ensures r.Ok? && options.cursor.Some? ==>
      var c := options.cursor.value;
      && r.value.program == c.program && r.value.slurp == c.slurp && r.value.hypotheses == c.hypotheses
      && r.value.watermark == c.watermark && r.value.limit == c.limit && r.value.continuation == c.continuation
      && r.value.evidenceEpoch == c.evidenceEpoch && (c.slurp ==> r.value.spoolId == c.continuation.spoolId)
  {
    ProgramLength(options.requestedProgram);
    if options.cursor.Some? { ProgramLength(options.cursor.value.program); }
    hide Length;
    if (options.requestedProgram == "" && options.cursor.None?) || Length(options.requestedProgram) > 4096 {
      return Err(InvalidArguments);
    }
    var program := options.requestedProgram;
    var slurp := options.slurp;
    if preflight.None? { return Err(SessionNotFound); }
    var hypotheses: seq<string> := [];
    var watermark := preflight.value.watermark;
    var limit := options.limit;
    var continuation := FROM_START;
    if options.cursor.Some? {
      var cursor := options.cursor.value;
      if !WellFormed(cursor) { return Err(InvalidCursor); }
      if cursor.sessionId != options.sessionId { return Err(CursorScope); }
      if cursor.evidenceEpoch != preflight.value.evidenceEpoch { return Err(CursorStale); }
      if options.requestedProgram != "" && options.requestedProgram != cursor.program { return Err(ProgramMismatch); }
      program, slurp, hypotheses := cursor.program, cursor.slurp, cursor.hypotheses;
      watermark, limit, continuation := cursor.watermark, cursor.limit, cursor.continuation;
    }
    var spoolId := freshSpool;
    if continuation.Spool? { spoolId := continuation.spoolId; }
    return Ok(Plan(program, slurp, hypotheses, watermark, limit, continuation, spoolId, preflight.value.evidenceEpoch));
  }

  /** The phases after the native call; `removed` tells whether the spool file is deleted. */
  method Postflight(
    sessionId: string, plan: Plan, native: Result<NativePage, NativeFailure>, postflight: Option<Status>)
    returns (r: Result<Output, CommandError>, removed: bool)
    ensures r == Conclude(sessionId, plan, native, postflight)
    ensures removed <==> RemovesSpool(plan, r)
    // the epoch comes first, whatever the native call did
    ensures postflight.None? || postflight.value.evidenceEpoch != plan.evidenceEpoch ==>
      r == Err(CursorStale) && removed == plan.slurp
    ensures postflight.Some? && postflight.value.evidenceEpoch == plan.evidenceEpoch ==>
      match native
      case Err(Timeout) => r == Err(Native(Timeout)) && removed == plan.slurp
      case Err(EvidenceMalformed) => r == Err(Native(EvidenceMalformed)) && removed == plan.slurp
      case Err(QueryFailed) => r == Err(Native(QueryFailed)) && !removed
      case Err(SpoolUnavailable) => r == Err(Native(SpoolUnavailable)) && !removed
      case Ok(page) =>
        && r.Ok? && r.value.rows == page.results
        && (removed <==> plan.slurp && page.nextByteOffset.None?)
        && (r.value.nextCursor.Some? <==> page.nextByteOffset.Some?)
        && (r.value.nextCursor.Some? ==>
              var c := r.value.nextCursor.value;
              && c.program == plan.program && c.slurp == plan.slurp && c.hypotheses == plan.hypotheses
              && c.watermark == plan.watermark && c.limit == plan.limit && c.evidenceEpoch == plan.evidenceEpoch
              && c.sessionId == sessionId && c.continuation.byteOffset == page.nextByteOffset.value
              && (plan.slurp ==> c.continuation == Spool(page.nextByteOffset.value, plan.spoolId))
              && (!plan.slurp ==>
                    match page.nextOutputOrdinal
                    case Some(ordinal) => c.continuation == Stream(page.nextByteOffset.value, ordinal)
                    case None => c.continuation == Stream(page.nextByteOffset.value, 0)))
  {
    if postflight.None? || postflight.value.evidenceEpoch != plan.evidenceEpoch {
      return Err(CursorStale), plan.slurp;
    }
    if native.Err? {
      return Err(Native(native.error)), plan.slurp && native.error in {EvidenceMalformed, Timeout};
    }
    var page := native.value;
    var nextCursor: Option<Cursor> := None;
    if page.nextByteOffset.Some? {
      var byteOffset := page.nextByteOffset.value;
      var continuation;
      if plan.slurp {
        continuation := Spool(byteOffset, plan.spoolId);
      } else {
        continuation := Stream(
          byteOffset, if page.nextOutputOrdinal.Some? then page.nextOutputOrdinal.value else 0);
      }
      nextCursor := Some(Cursor(
        continuation, plan.evidenceEpoch, plan.hypotheses, plan.limit, plan.program, sessionId, plan.slurp,
        plan.watermark));
    }
    return Ok(Output(page.results, nextCursor)), plan.slurp && nextCursor.None?;
  }

  /** A cursor handed out by a successful page repeats its query: the next command with that cursor,
      in the same epoch, plans the same program, scope, limit and mode at the page's continuation. */
  lemma CursorContinuesThePlan(
    options: QueryOptions, preflight: Option<Status>, freshSpool: string, plan: Plan,
    native: Result<NativePage, NativeFailure>, postflight: Option<Status>, output: Output,
    next: QueryOptions, nextPreflight: Status, nextFresh: string)
    requires Prepare(options, preflight, freshSpool) == Ok(plan) && plan.limit >= 1
    requires Conclude(options.sessionId, plan, native, postflight) == Ok(output) && output.nextCursor.Some?
    requires next == QueryOptions(options.sessionId, "", output.nextCursor, next.slurp, next.limit)
    ensures nextPreflight.evidenceEpoch != plan.evidenceEpoch
        ==> Prepare(next, Some(nextPreflight), nextFresh) == Err(CursorStale)
    ensures nextPreflight.evidenceEpoch == plan.evidenceEpoch
        ==> Prepare(next, Some(nextPreflight), nextFresh)
            == Ok(plan.(continuation := NextContinuation(plan, native.value).value,
                        spoolId := if plan.slurp then plan.spoolId else nextFresh))
  {
  }
}
