/** `run_slurp_page` and `read_spool_page`: one evaluation, spooled to a private file and read in pages. */
module SlurpPage {
  import opened Common
  import opened Lines
  import opened Faults
  import QueryPage

  /** A value as its rendered JSON text. */
  type Text = seq<byte>

  /** The outputs of the program over the array of all inputs. */
  datatype SlurpOutcome = SlurpOutcome(values: seq<Text>, failed: bool)

  datatype SlurpEngine = SlurpEngine(
    classify: seq<byte> -> QueryPage.Reading, parses: seq<byte> -> bool, run: seq<seq<byte>> -> SlurpOutcome,
    compiles: bool, validJson: Text -> bool)

  datatype Failure = EvidenceMalformed | QueryFailed | Timeout | SpoolUnavailable

  datatype SpoolPage = SpoolPage(results: seq<Text>, next: Option<nat>)

  type Spools = map<string, seq<byte>>

  /** What `BufRead::lines` yields: the line without its LF or CR LF. */
  function StripLine(line: seq<byte>): seq<byte>
  {
    if line != [] && line[|line| - 1] == LF then
      var l := line[..|line| - 1];
      if l != [] && l[|l| - 1] == CR then l[..|l| - 1] else l
    else line
  }

  /** One LF, or one CR and LF, is cut off. */
  lemma StripLineCuts(text: seq<byte>)
    ensures LF !in text ==> StripLine(text) == text
    ensures StripLine(text + [13, 10]) == text
    ensures (text == [] || text[|text| - 1] != 13) ==> StripLine(text + [10]) == text
  {
    var ended := text + [13, 10];
    assert ended[..|ended| - 1] == text + [13];
    assert (text + [10])[..|text|] == text;
  }

  /** The lines of the log that the array of inputs is made of; any bad line fails the whole query. */
  function Inputs(e: SlurpEngine, scope: QueryPage.Scope, file: seq<byte>, pos: nat): Result<seq<seq<byte>>, Failure>
    decreases |file| - pos
  {
    if pos >= |file| then Ok([])
    else
      var end := LineEnd(file, pos);
      var line := StripLine(file[pos..end]);
      if line == [] then Inputs(e, scope, file, end)
      else
        var reading := e.classify(line);
        if !reading.Record? then Err(EvidenceMalformed)
        else if !QueryPage.InScope(scope, reading) then Inputs(e, scope, file, end)
        else if !e.parses(line) then Err(EvidenceMalformed)
        else
          Following([line], Inputs(e, scope, file, end))
  }

  /** jaq prints a value as one non-empty line without a carriage return at its end. */
  ghost predicate RendersLines(e: SlurpEngine)
  {
    forall inputs, i | 0 <= i < |e.run(inputs).values| :: OneLine(e.run(inputs).values[i])
  }

  /** One complete evaluation of the query over the log. */
  function Evaluate(e: SlurpEngine, scope: QueryPage.Scope, file: seq<byte>): Result<seq<Text>, Failure>
  {
    if !e.compiles then Err(QueryFailed)
    else
      var inputs := Inputs(e, scope, file, 0);
      if inputs.Err? then Err(inputs.error)
      else if e.run(inputs.value).failed then Err(QueryFailed)
      else Ok(e.run(inputs.value).values)
  }

  /** The page that starts with value `i` of a spooled list. */
  ghost predicate PageOfSpool(
    e: SlurpEngine, values: seq<Text>, i: nat, limit: nat, r: Result<SpoolPage, Failure>)
    requires i <= |values|
  {
    if r.Err? then
      || r.error == Timeout
      || (r.error == SpoolUnavailable && exists k | i <= k < |values| && k <= i + limit :: !e.validJson(values[k]))
    else
      && r.value.results == values[i..Min(i + limit, |values|)]
      && r.value.next == if i + limit < |values| then Some(|Joined(values[..i + limit])|) else None
  }

  /** The spools of a session, and the temporary files of spools under construction by their spool's id. */
  class SpoolDirectory {
    var files: Spools
    var temporaries: set<string>

    constructor ()
      ensures files == map[] && temporaries == {}
    {
      files, temporaries := map[], {};
    }
  }

  function Prepend(front: seq<Text>, rest: Result<SpoolPage, Failure>): Result<SpoolPage, Failure>
  {
    if rest.Err? then rest else Ok(SpoolPage(front + rest.value.results, rest.value.next))
  }

  /** Up to `limit` lines of the spool from `pos` on, with one line of lookahead; every line must be JSON. */
  function SpoolRead(e: SlurpEngine, spool: seq<byte>, pos: nat, limit: nat): Result<SpoolPage, Failure>
    decreases |spool| - pos
  {
    if pos >= |spool| then Ok(SpoolPage([], None))
    else
      var end := LineEnd(spool, pos);
      var value := TrimEnd(spool[pos..end]);
      if !e.validJson(value) then Err(SpoolUnavailable)
      else if limit == 0 then Ok(SpoolPage([], Some(pos)))
      else Prepend([value], SpoolRead(e, spool, end, limit - 1))
  }

  method ReadSpoolPage(
    e: SlurpEngine, spool: seq<byte>, byteOffset: nat, limit: nat, deadline: QueryPage.QueryDeadline, disk: FaultyDisk)
    returns (r: Result<SpoolPage, Failure>)
    modifies deadline, disk
    ensures Bounded(r, SpoolRead(e, spool, byteOffset, limit), deadline, disk, old(disk.accesses))
  {
    var ok := disk.Access();
    if !ok { return Err(SpoolUnavailable); }
    var results: seq<Text> := [];
    var lineStart := byteOffset;
    PrependTwice([], [], SpoolRead(e, spool, byteOffset, limit));
    while true
      invariant disk.accesses >= old(disk.accesses) && disk.Clean(old(disk.accesses))
      invariant |results| <= limit
      invariant SpoolRead(e, spool, byteOffset, limit)
             == Prepend(results, SpoolRead(e, spool, lineStart, limit - |results|))
      decreases |spool| - lineStart
    {
      var late := deadline.Check();
      if late { return Err(Timeout); }
      ok := disk.Access();
      if !ok { return Err(SpoolUnavailable); }
      assert results + [] == results;
      if lineStart >= |spool| { return Ok(SpoolPage(results, None)); }
      var next := LineEnd(spool, lineStart);
      var value := TrimEnd(spool[lineStart..next]);
      if !e.validJson(value) { return Err(SpoolUnavailable); }
      if |results| == limit { return Ok(SpoolPage(results, Some(lineStart))); }
      PrependTwice(results, [value], SpoolRead(e, spool, next, limit - |results| - 1));
      results := results + [value];
      lineStart := next;
    }
  }

  lemma PrependTwice(a: seq<Text>, b: seq<Text>, rest: Result<SpoolPage, Failure>)
    ensures Prepend(a, Prepend(b, rest)) == Prepend(a + b, rest)
    ensures Prepend([], rest) == rest
  {
    if rest.Ok? {
      assert a + (b + rest.value.results) == (a + b) + rest.value.results;
      assert [] + rest.value.results == rest.value.results;
    }
  }

  /** `spool` is the spool of `values`, and value `i` starts at `offset`. */
  ghost predicate Spooled(spool: seq<byte>, offset: nat, values: seq<Text>, i: nat)
  {
    && i <= |values| && spool == Joined(values) && offset == |Joined(values[..i])|
    && forall k | 0 <= k < |values| :: OneLine(values[k])
  }

  lemma SliceFromOneEarlier(values: seq<Text>, i: nat, end: nat)
    requires i < end <= |values|
    ensures values[i..end] == [values[i]] + values[i + 1..end]
  {
  }

  /** A page that starts one value earlier. */
  lemma PagePrepends(
    e: SlurpEngine, values: seq<Text>, i: nat, limit: nat, rest: Result<SpoolPage, Failure>)
    requires i < |values| && limit > 0 && PageOfSpool(e, values, i + 1, limit - 1, rest)
    ensures PageOfSpool(e, values, i, limit, Prepend([values[i]], rest))
  {
    hide Joined;
    if rest.Ok? {
      SliceFromOneEarlier(values, i, Min(i + limit, |values|));
    } else if rest.error == SpoolUnavailable {
      var k :| i + 1 <= k < |values| && k <= i + limit && !e.validJson(values[k]);
      assert i <= k < |values| && k <= i + limit && !e.validJson(values[k]);
    }
  }

  /** Reading the spool of a list from value `i` on gives the next values of that list. */
  lemma {:induction false} SpoolReadIsPage(
    e: SlurpEngine, spool: seq<byte>, offset: nat, values: seq<Text>, i: nat, limit: nat)
    requires Spooled(spool, offset, values, i)
    ensures PageOfSpool(e, values, i, limit, SpoolRead(e, spool, offset, limit))
    decreases |values| - i
  {
    hide Joined;
    if i == |values| {
      assert values[..i] == values;
    } else {
      JoinedLine(values, i);
      if e.validJson(values[i]) {
        if limit > 0 {
          var end := |Joined(values[..i + 1])|;
          SpoolReadIsPage(e, spool, end, values, i + 1, limit - 1);
          PagePrepends(e, values, i, limit, SpoolRead(e, spool, end, limit - 1));
        }
      } else {
        assert i <= i < |values| && i <= i + limit && !e.validJson(values[i]);
      }
    }
  }

  function Following(front: seq<seq<byte>>, rest: Result<seq<seq<byte>>, Failure>): Result<seq<seq<byte>>, Failure>
  {
    if rest.Err? then rest else Ok(front + rest.value)
  }

  lemma FollowingTwice(a: seq<seq<byte>>, b: seq<seq<byte>>, rest: Result<seq<seq<byte>>, Failure>)
    ensures Following(a, Following(b, rest)) == Following(a + b, rest)
    ensures Following([], rest) == rest
  {
    if rest.Ok? {
      assert a + (b + rest.value) == (a + b) + rest.value;
      assert [] + rest.value == rest.value;
    }
  }

  /** Collects the inputs, checking the deadline before every line. */
  method CollectInputs(
    e: SlurpEngine, scope: QueryPage.Scope, file: seq<byte>, deadline: QueryPage.QueryDeadline)
    returns (r: Result<seq<seq<byte>>, Failure>)
    modifies deadline
    ensures r != Err(Timeout) ==> r == Inputs(e, scope, file, 0)
    ensures r == Err(Timeout) ==> !deadline.NeverFires()
  {
    var inputs: seq<seq<byte>> := [];
    var pos := 0;
    FollowingTwice([], [], Inputs(e, scope, file, 0));
    while pos < |file|
      invariant pos <= |file|
      invariant Inputs(e, scope, file, 0) == Following(inputs, Inputs(e, scope, file, pos))
    {
      var late := deadline.Check();
      if late { return Err(Timeout); }
      var end := LineEnd(file, pos);
      var line := StripLine(file[pos..end]);
      if line != [] {
        var reading := e.classify(line);
        if !reading.Record? { return Err(EvidenceMalformed); }
        if QueryPage.InScope(scope, reading) {
          if !e.parses(line) { return Err(EvidenceMalformed); }
          FollowingTwice(inputs, [line], Inputs(e, scope, file, end));
          inputs := inputs + [line];
        }
      }
      pos := end;
    }
    assert inputs + [] == inputs;
    return Ok(inputs);
  }

  /** The outcome is `expected`, except that the deadline may have fired or an access since `from` failed. */
  ghost predicate Bounded<T(!new)>(
    r: Result<T, Failure>, expected: Result<T, Failure>, deadline: QueryPage.QueryDeadline, disk: FaultyDisk, from: nat)
    reads deadline, disk
  {
    && disk.accesses >= from
    && (r == expected
        || (r == Err(Timeout) && !deadline.NeverFires())
        || (r == Err(SpoolUnavailable) && !disk.Clean(from)))
    && (r.Ok? ==> disk.Clean(from))
  }

  /** The spool that one evaluation leaves behind. */
  function Built(e: SlurpEngine, scope: QueryPage.Scope, file: seq<byte>, taken: bool): Result<seq<byte>, Failure>
  {
    if e.compiles && Inputs(e, scope, file, 0).Ok? && taken then Err(SpoolUnavailable)
    else
      var evaluated := Evaluate(e, scope, file);
      if evaluated.Err? then Err(evaluated.error) else Ok(Joined(evaluated.value))
  }

  /** What the write loop makes of the outputs. */
  function Written(outputs: SlurpOutcome): Result<seq<byte>, Failure>
  {
    if outputs.failed then Err(QueryFailed) else Ok(Joined(outputs.values))
  }

  /** No temporary file is left but those that were there `before`, unless the last access, the removal of
      `spoolId`'s, failed. */
  ghost predicate Tidy(directory: SpoolDirectory, before: set<string>, spoolId: string, ok: bool, disk: FaultyDisk)
    reads directory, disk
  {
    || directory.temporaries == before
    || (directory.temporaries == before + {spoolId} && !ok && disk.accesses > 0 && disk.fails(disk.accesses - 1))
  }

  /** Evaluates the program into a temporary file and renames it when all of it was written and synced. On every
      other exit the temporary file is removed again. */
  method BuildSpool(
    e: SlurpEngine, scope: QueryPage.Scope, file: seq<byte>, directory: SpoolDirectory, spoolId: string,
    deadline: QueryPage.QueryDeadline, disk: FaultyDisk)
    returns (r: Result<seq<byte>, Failure>)
    modifies directory, deadline, disk
    ensures Bounded(r, Built(e, scope, file, spoolId in old(directory.temporaries)), deadline, disk, old(disk.accesses))
    ensures directory.files == if r.Ok? then old(directory.files)[spoolId := r.value] else old(directory.files)
    ensures Tidy(directory, old(directory.temporaries), spoolId, r.Ok?, disk)
  {
    hide Joined, Inputs;
    var late := deadline.Check();
    if late { return Err(Timeout); }
    if !e.compiles { return Err(QueryFailed); }
    late := deadline.Check();
    if late { return Err(Timeout); }
    var inputs := CollectInputs(e, scope, file, deadline);
    if inputs.Err? { return Err(inputs.error); }
    late := deadline.Check();
    if late { return Err(Timeout); }
    r := FillSpool(e.run(inputs.value), directory, spoolId, deadline, disk);
  }

  /** Creates, writes, syncs and renames the temporary file. */
  method FillSpool(
    outputs: SlurpOutcome, directory: SpoolDirectory, spoolId: string, deadline: QueryPage.QueryDeadline,
    disk: FaultyDisk)
    returns (r: Result<seq<byte>, Failure>)
    modifies directory, deadline, disk
    ensures Bounded(r, if spoolId in old(directory.temporaries) then Err(SpoolUnavailable) else Written(outputs),
                    deadline, disk, old(disk.accesses))
    ensures directory.files == if r.Ok? then old(directory.files)[spoolId := r.value] else old(directory.files)
    ensures Tidy(directory, old(directory.temporaries), spoolId, r.Ok?, disk)
  {
    hide Written;
    if spoolId in directory.temporaries { return Err(SpoolUnavailable); }  // created with create_new
    var ok := disk.Access();
    if !ok { return Err(SpoolUnavailable); }
    directory.temporaries := directory.temporaries + {spoolId};
    r := WriteSpool(outputs, deadline, disk);
    if r.Ok? {
      ok := disk.Access();
      if ok {
        directory.files := directory.files[spoolId := r.value];
        directory.temporaries := directory.temporaries - {spoolId};
        return;
      }
      r := Err(SpoolUnavailable);
    }
    ok := disk.Access();
    if ok { directory.temporaries := directory.temporaries - {spoolId}; }
  }

  /** The write loop and the sync. */
  method WriteSpool(outputs: SlurpOutcome, deadline: QueryPage.QueryDeadline, disk: FaultyDisk)
    returns (r: Result<seq<byte>, Failure>)
    modifies deadline, disk
    ensures Bounded(r, Written(outputs), deadline, disk, old(disk.accesses))
  {
    hide Joined;
    var spool: seq<byte> := [];
    var k := 0;
    NothingJoined(outputs.values);
    while true
      invariant disk.accesses >= old(disk.accesses) && disk.Clean(old(disk.accesses))
      invariant k <= |outputs.values| && spool == Joined(outputs.values[..k])
      decreases |outputs.values| - k
    {
      var late := deadline.Check();
      if late { return Err(Timeout); }
      if k == |outputs.values| && !outputs.failed { break; }
      late := deadline.Check();
      if late { return Err(Timeout); }
      if k == |outputs.values| { return Err(QueryFailed); }
      var ok := disk.Access();
      if !ok { return Err(SpoolUnavailable); }
      JoinedNext(outputs.values, k);
      spool := spool + (outputs.values[k] + [LF]);
      k := k + 1;
    }
    assert outputs.values[..k] == outputs.values;
    var ok := disk.Access();
    r := if ok then Ok(spool) else Err(SpoolUnavailable);
  }

  /** The effect of one call on the spools, and its answer. */
  ghost predicate SlurpCall(
    e: SlurpEngine, scope: QueryPage.Scope, file: seq<byte>, spoolId: string, offset: nat, limit: nat,
    before: Spools, after: Spools, r: Result<SpoolPage, Failure>)
  {
    // an existing spool is read and never rewritten; a missing one is built only at offset zero
    && (spoolId in before ==> after == before)
    && (spoolId !in before && offset > 0 ==> after == before && r == Err(SpoolUnavailable))
    && (spoolId !in before && offset == 0 ==>
          || (after == before && r.Err?)
          || (Evaluate(e, scope, file).Ok? && after == before[spoolId := Joined(Evaluate(e, scope, file).value)]))
    // the answer is read from the spool
    && (r.Ok? ==> spoolId in after && r == SpoolRead(e, after[spoolId], offset, limit))
  }

  /** The answer and the spools afterwards, unless the deadline fires or the disk fails; `taken` says that a
      temporary file of this spool is in the way. */
  function SlurpAnswer(
    e: SlurpEngine, scope: QueryPage.Scope, file: seq<byte>, spoolId: string, offset: nat, limit: nat,
    before: Spools, taken: bool): (Result<SpoolPage, Failure>, Spools)
  {
    if spoolId in before then (SpoolRead(e, before[spoolId], offset, limit), before)
    else if offset > 0 then (Err(SpoolUnavailable), before)
    else match Built(e, scope, file, taken)
      case Err(failure) => (Err(failure), before)
      case Ok(spool) => (SpoolRead(e, spool, offset, limit), before[spoolId := spool])
  }

  method RunSlurpPage(
    e: SlurpEngine, scope: QueryPage.Scope, file: seq<byte>, directory: SpoolDirectory, spoolId: string,
    spoolByteOffset: nat, limit: nat, deadline: QueryPage.QueryDeadline, disk: FaultyDisk)
    returns (r: Result<SpoolPage, Failure>)
    modifies directory, deadline, disk
    ensures SlurpCall(e, scope, file, spoolId, spoolByteOffset, limit, old(directory.files), directory.files, r)
    ensures var (answer, files) := SlurpAnswer(e, scope, file, spoolId, spoolByteOffset, limit, old(directory.files),
                                               spoolId in old(directory.temporaries));
            && Bounded(r, answer, deadline, disk, old(disk.accesses))
            && (r == answer || directory.files == old(directory.files) || directory.files == files)
            && (r.Ok? ==> directory.files == files)
    ensures Tidy(directory, old(directory.temporaries), spoolId, r.Ok?, disk)
  {
    hide Joined, SpoolRead, Inputs;
    var spoolExists := spoolId in directory.files;
    if spoolByteOffset > 0 && !spoolExists { return Err(SpoolUnavailable); }
    if !spoolExists {
      var built := BuildSpool(e, scope, file, directory, spoolId, deadline, disk);
      if built.Err? { return Err(built.error); }
    }
    r := ReadSpoolPage(e, directory.files[spoolId], spoolByteOffset, limit, deadline, disk);
  }

  // --- chains of slurp pages -------------------------------------------------------------------

  /** One native slurp call in a history of calls. */
  datatype Call = Call(
    e: SlurpEngine, scope: QueryPage.Scope, file: seq<byte>, spoolId: string, offset: nat, limit: nat,
    before: Spools, after: Spools, r: Result<SpoolPage, Failure>)

  /** Calls of any number of queries. Between them spools may vanish (the last page, a failed command or a
      reset deletes them) but nothing else creates or changes one. A fresh query draws a new spool id;
      any other call continues a page that some earlier call returned. */
  ghost predicate History(h: seq<Call>)
  {
    && (forall k | 0 <= k < |h| ::
          && h[k].limit >= 1 && RendersLines(h[k].e)
          && SlurpCall(h[k].e, h[k].scope, h[k].file, h[k].spoolId, h[k].offset, h[k].limit, h[k].before, h[k].after,
                       h[k].r))
    && (|h| > 0 ==> h[0].before == map[])
    && (forall k, n | 0 <= k < n < |h| && n == k + 1 :: h[n].before.Items <= h[k].after.Items)
    && (forall k | 0 <= k < |h| :: Fresh(h, k) || Continues(h, k))
  }

  ghost predicate Fresh(h: seq<Call>, k: nat)
    requires k < |h|
  {
    h[k].offset == 0 && forall j | 0 <= j < k :: h[j].spoolId != h[k].spoolId
  }

  ghost predicate Continues(h: seq<Call>, k: nat)
    requires k < |h|
  {
    exists j | 0 <= j < k :: h[j].spoolId == h[k].spoolId && h[j].r.Ok? && h[j].r.value.next == Some(h[k].offset)
  }

  /** The spool of `id` after call `k`, if it is there, holds the one evaluation of the query that drew `id`. */
  ghost predicate HoldsEvaluation(h: seq<Call>, spool: seq<byte>, id: string, k: nat)
    requires k < |h|
  {
    exists j | 0 <= j <= k ::
      h[j].spoolId == id && h[j].offset == 0 && Fresh(h, j)
      && Evaluate(h[j].e, h[j].scope, h[j].file).Ok?
      && spool == Joined(Evaluate(h[j].e, h[j].scope, h[j].file).value)
  }

  /** Reading from any offset hands over at a strictly larger one. */
  lemma {:induction false} NextIsLater(e: SlurpEngine, spool: seq<byte>, pos: nat, limit: nat)
    requires SpoolRead(e, spool, pos, limit).Ok? && SpoolRead(e, spool, pos, limit).value.next.Some?
    ensures SpoolRead(e, spool, pos, limit).value.next.value >= pos
    ensures limit > 0 ==> SpoolRead(e, spool, pos, limit).value.next.value > pos
    decreases |spool| - pos
  {
    if limit > 0 { NextIsLater(e, spool, LineEnd(spool, pos), limit - 1); }
  }

  /** Issued continuations are positive, so only the first call of a query can reach the evaluation. */
  lemma ContinuationsArePositive(h: seq<Call>, k: nat)
    requires History(h) && k < |h|
    ensures h[k].r.Ok? && h[k].r.value.next.Some? ==> h[k].r.value.next.value > 0
    ensures Fresh(h, k) <==> h[k].offset == 0
    ensures !Fresh(h, k) && h[k].spoolId !in h[k].before ==>
      h[k].r == Err(SpoolUnavailable) && h[k].after == h[k].before
  {
    if h[k].r.Ok? && h[k].r.value.next.Some? {
      NextIsLater(h[k].e, h[k].after[h[k].spoolId], h[k].offset, h[k].limit);
    }
    if Continues(h, k) {
      var j :| 0 <= j < k && h[j].spoolId == h[k].spoolId && h[j].r.Ok? && h[j].r.value.next == Some(h[k].offset);
      NextIsLater(h[j].e, h[j].after[h[j].spoolId], h[j].offset, h[j].limit);
    }
  }

  lemma {:induction false} SpoolsHoldEvaluations(h: seq<Call>, k: nat, id: string)
    requires History(h) && k < |h| && id in h[k].after
    ensures HoldsEvaluation(h, h[k].after[id], id, k)
  {
    hide Joined, SpoolRead, Evaluate, RendersLines;
    ContinuationsArePositive(h, k);
    if id in h[k].before && h[k].after[id] == h[k].before[id] {
      assert k > 0;
      assert (id, h[k].before[id]) in h[k].before.Items;
      assert (id, h[k].before[id]) in h[k - 1].after.Items;
      SpoolsHoldEvaluations(h, k - 1, id);
      var j :| 0 <= j <= k - 1 && h[j].spoolId == id && h[j].offset == 0 && Fresh(h, j)
        && Evaluate(h[j].e, h[j].scope, h[j].file).Ok?
        && h[k - 1].after[id] == Joined(Evaluate(h[j].e, h[j].scope, h[j].file).value);
    }
  }

  /** The calls of one query in order: `walk[0]` drew the spool id, each next call carries the cursor of the
      one before, and the last page returned no cursor. */
  ghost predicate WalkOf(h: seq<Call>, walk: seq<nat>)
  {
    && walk != []
    && (forall n | 0 <= n < |walk| :: walk[n] < |h| && h[walk[n]].r.Ok?)
    && Fresh(h, walk[0])
    && (forall n, m | 0 <= n < m < |walk| && m == n + 1 ::
          && walk[n] < walk[m] && h[walk[m]].spoolId == h[walk[n]].spoolId
          && h[walk[n]].r.value.next == Some(h[walk[m]].offset)
          && h[walk[m]].e == h[walk[n]].e && h[walk[m]].limit == h[walk[n]].limit)
    && h[walk[|walk| - 1]].r.value.next.None?
  }

  function WalkRows(h: seq<Call>, walk: seq<nat>): seq<Text>
    requires forall n | 0 <= n < |walk| :: walk[n] < |h| && h[walk[n]].r.Ok?
  {
    if walk == [] then []
    else WalkRows(h, walk[..|walk| - 1]) + h[walk[|walk| - 1]].r.value.results
  }

  /** Every call of a walk read the spool of the walk's one evaluation. */
  lemma {:induction false} WalkReadsOneSpool(h: seq<Call>, walk: seq<nat>, n: nat)
    requires History(h) && WalkOf(h, walk) && n < |walk|
    ensures h[walk[n]].spoolId == h[walk[0]].spoolId && h[walk[n]].spoolId in h[walk[n]].after
    ensures h[walk[n]].e == h[walk[0]].e && h[walk[n]].limit == h[walk[0]].limit
    ensures Evaluate(h[walk[0]].e, h[walk[0]].scope, h[walk[0]].file).Ok?
    ensures h[walk[n]].after[h[walk[n]].spoolId]
         == Joined(Evaluate(h[walk[0]].e, h[walk[0]].scope, h[walk[0]].file).value)
  {
    hide Joined, SpoolRead, Evaluate, RendersLines;
    var k, id := walk[n], h[walk[0]].spoolId;
    if n > 0 { WalkReadsOneSpool(h, walk, n - 1); }
    SpoolsHoldEvaluations(h, k, h[k].spoolId);
    var j :| 0 <= j <= k && h[j].spoolId == id && h[j].offset == 0 && Fresh(h, j)
      && Evaluate(h[j].e, h[j].scope, h[j].file).Ok?
      && h[k].after[id] == Joined(Evaluate(h[j].e, h[j].scope, h[j].file).value);
    assert j == walk[0];
  }

  /** A call of the walk delivers the next values of the list. */
  lemma {:induction false} CallDelivers(h: seq<Call>, walk: seq<nat>, n: nat, values: seq<Text>, i: nat)
    requires History(h) && WalkOf(h, walk) && n < |walk|
    requires Evaluate(h[walk[0]].e, h[walk[0]].scope, h[walk[0]].file) == Ok(values)
    requires Spooled(Joined(values), h[walk[n]].offset, values, i)
    ensures var call := h[walk[n]];
            && call.r.Ok? && call.r.value.results == values[i..Min(i + call.limit, |values|)]
            && call.r.value.next == if i + call.limit < |values| then Some(|Joined(values[..i + call.limit])|) else None
  {
    hide Joined, SpoolRead, Evaluate, Spooled;
    WalkReadsOneSpool(h, walk, n);
    EvaluationRenders(h, walk, values);
    var call := h[walk[n]];
    SpoolReadIsPage(call.e, Joined(values), call.offset, values, i, call.limit);
  }

  /** The pages before call `n` delivered exactly the values before the one its offset points at. */
  lemma {:induction false} WalkPosition(h: seq<Call>, walk: seq<nat>, n: nat, values: seq<Text>) returns (i: nat)
    requires History(h) && WalkOf(h, walk) && n < |walk|
    requires Evaluate(h[walk[0]].e, h[walk[0]].scope, h[walk[0]].file) == Ok(values)
    ensures Spooled(Joined(values), h[walk[n]].offset, values, i)
    ensures WalkRows(h, walk[..n]) == values[..i]
  {
    hide Joined, SpoolRead, Evaluate, History;
    EvaluationRenders(h, walk, values);
    if n == 0 {
      i := 0;
      FreshStartsAtZero(h, walk);
      EmptySpool(values);
    } else {
      var m := WalkPosition(h, walk, n - 1, values);
      CallDelivers(h, walk, n - 1, values, m);
      assert h[walk[n - 1]].r.value.next == Some(h[walk[n]].offset);
      i := m + h[walk[n - 1]].limit;
      assert walk[..n][..n - 1] == walk[..n - 1];
      assert values[..i] == values[..m] + values[m..i];
    }
  }

  lemma FreshStartsAtZero(h: seq<Call>, walk: seq<nat>)
    requires History(h) && WalkOf(h, walk)
    ensures h[walk[0]].offset == 0
  {
  }

  lemma EvaluationRenders(h: seq<Call>, walk: seq<nat>, values: seq<Text>)
    requires History(h) && WalkOf(h, walk)
    requires Evaluate(h[walk[0]].e, h[walk[0]].scope, h[walk[0]].file) == Ok(values)
    ensures forall k | 0 <= k < |values| :: OneLine(values[k])
  {
  }

  lemma EmptySpool(values: seq<Text>)
    ensures |Joined(values[..0])| == 0
  {
  }

  /** A walk of successful slurp pages to its end delivers the outputs of exactly one evaluation, over the
      log that the first call read, whatever other queries, deletions and resets did in between. */
  lemma {:induction false} SlurpWalkIsOneEvaluation(h: seq<Call>, walk: seq<nat>)
    requires History(h) && WalkOf(h, walk)
    ensures Evaluate(h[walk[0]].e, h[walk[0]].scope, h[walk[0]].file) == Ok(WalkRows(h, walk))
  {
    hide Joined, SpoolRead, Evaluate, History;
    var last := |walk| - 1;
    WalkReadsOneSpool(h, walk, last);
    var values := Evaluate(h[walk[0]].e, h[walk[0]].scope, h[walk[0]].file).value;
    var i := WalkPosition(h, walk, last, values);
    CallDelivers(h, walk, last, values, i);
    assert values == values[..i] + values[i..Min(i + h[walk[last]].limit, |values|)];
  }
}
