/** Ingestion of records: the event store, the diagnostic store and the sequence counter, each a file with an
    in-memory copy of something the file determines, and `IngestionService` on top of them. */
module Ingestion {
  import opened Common
  import opened DirectAppend

  /** Event and diagnostic identifiers: a hash of where a direct line starts and what it says, or a random one. */
  datatype Id = Direct(start: nat, content: seq<byte>) | Random(n: nat)

  /** What parsing and validation make of the bytes of a record; `body` stands for the probe's fields. */
  datatype Verdict = Valid(body: string, redacts: bool) | BadSchema | BadJson

  type Judge = seq<byte> -> Verdict

  /** A line of events.ndjson; `redacted` says that validation replaced secrets in it. */
  datatype Stored = Stored(id: Id, sequence: nat, body: string, redacted: bool)

  datatype Reason =
    | OverLimit(actualByteLength: nat, previewByteLength: nat)
    | InvalidJson(previewByteLength: nat)
    | InvalidSchema
    | SecretRedacted(event: Id)

  datatype Diagnostic = Diagnostic(id: Id, reason: Reason)

  /** A record handed to the service with the identifiers it will get. */
  datatype Item = Item(id: Id, content: seq<byte>, actualByteLength: nat, previewByteLength: nat)

  datatype IngestionResult = Accepted | Invalid | Malformed | TooLarge | NotFound | Threw

  /** Which of the two files can be written at the moment. */
  datatype Disk = Disk(events: bool, diagnostics: bool)

  function EventIds(events: seq<Stored>): set<Id> { set e | e in events :: e.id }

  function DiagnosticIds(diagnostics: seq<Diagnostic>): set<Id> { set d | d in diagnostics :: d.id }

  function MaximumSequence(events: seq<Stored>): nat
  {
    if events == [] then 0 else Max(MaximumSequence(events[..|events| - 1]), events[|events| - 1].sequence)
  }

  /** One session's files and what the daemon remembers about them. */
  datatype Store = Store(
    events: seq<Stored>, diagnostics: seq<Diagnostic>,
    eventIds: Option<set<Id>>, diagnosticIds: Option<set<Id>>, counter: Option<nat>)
  {
    function KnownEvents(): set<Id> { if eventIds.Some? then eventIds.value else EventIds(events) }

    function KnownDiagnostics(): set<Id>
    {
      if diagnosticIds.Some? then diagnosticIds.value else DiagnosticIds(diagnostics)
    }

    function Current(): nat { if counter.Some? then counter.value else MaximumSequence(events) }

    function Restarted(): Store { Store(events, diagnostics, None, None, None) }
  }

  const EMPTY := Store([], [], Some({}), Some({}), None)

  /** Becomes an event, rather than a diagnostic. */
  predicate Good(judge: Judge, item: Item)
  {
    item.actualByteLength <= MAX_INGESTION_RECORD_BYTES && judge(item.content).Valid?
  }

  function ReasonFor(judge: Judge, item: Item): Reason
    requires !Good(judge, item)
  {
    if item.actualByteLength > MAX_INGESTION_RECORD_BYTES then OverLimit(item.actualByteLength, item.previewByteLength)
    else if judge(item.content).BadJson? then InvalidJson(item.previewByteLength)
    else InvalidSchema
  }

  function Rejection(judge: Judge, item: Item): IngestionResult
    requires !Good(judge, item)
  {
    match ReasonFor(judge, item)
    case OverLimit(_, _) => TooLarge
    case InvalidJson(_) => Malformed
    case _ => Invalid
  }

  /** Diagnostics whose identifier was not seen before, neither in the file nor earlier in the list. */
  function Unseen(known: set<Id>, diagnostics: seq<Diagnostic>): seq<Diagnostic>
    decreases |diagnostics|
  {
    if diagnostics == [] then []
    else if diagnostics[0].id in known then Unseen(known, diagnostics[1..])
    else [diagnostics[0]] + Unseen(known + {diagnostics[0].id}, diagnostics[1..])
  }

  /** Appending diagnostics, and whether that threw. */
  function Diagnosed(s: Store, diagnostics: seq<Diagnostic>, writable: bool): (Store, bool)
  {
    var known := s.KnownDiagnostics();
    var added := Unseen(known, diagnostics);
    if diagnostics == [] then (s, false)
    else if added == [] || !writable then (s.(diagnosticIds := Some(known)), added != [])
    else (s.(diagnostics := s.diagnostics + added, diagnosticIds := Some(known + DiagnosticIds(added))), false)
  }

  lemma NothingDiagnosed(s: Store, writable: bool)
    ensures Diagnosed(s, [], writable) == (s, false)
  {
  }

  function Remembered(s: Store): Store { s.(eventIds := Some(s.KnownEvents())) }

  function Numbered(s: Store): Store { Remembered(s).(counter := Some(s.Current() + 1)) }

  function Appended(s: Store, event: Stored): Store
  {
    s.(events := s.events + [event], eventIds := Some(s.KnownEvents() + {event.id}))
  }

  /** The outcome of ingesting a record. */
  function Ingested(judge: Judge, s: Store, item: Item, redactionId: Id, disk: Disk): (Store, IngestionResult)
  {
    if !Good(judge, item) then
      var (after, threw) := Diagnosed(s, [Diagnostic(item.id, ReasonFor(judge, item))], disk.diagnostics);
      (after, if threw then Threw else Rejection(judge, item))
    else if item.id in s.KnownEvents() then (Remembered(s), Accepted)
    else if !disk.events then (Numbered(s), Threw)
    else
      var verdict := judge(item.content);
      var appended := Appended(Numbered(s), Stored(item.id, s.Current() + 1, verdict.body, verdict.redacts));
      if !verdict.redacts then (appended, Accepted)
      else
        var (after, threw) := Diagnosed(appended, [Diagnostic(redactionId, SecretRedacted(item.id))], disk.diagnostics);
        (after, if threw then Threw else Accepted)
  }

  // --- what ingesting a record means ---------------------------------------------------------------

  /** The record leaves one diagnostic, unless it has left it before, and the answer says why. */
  predicate Rejects(
    before: Store, after: Store, d: Diagnostic, answer: IngestionResult, writable: bool, result: IngestionResult)
  {
    && after.events == before.events && after.eventIds == before.eventIds && after.counter == before.counter
    && if d.id in before.KnownDiagnostics() then after.diagnostics == before.diagnostics && result == answer
       else if writable then after.diagnostics == before.diagnostics + [d] && result == answer
       else after.diagnostics == before.diagnostics && result == Threw
  }

  /** The record leaves one event with the next number, unless it has left it before, and behind it a report when
      secrets were replaced. */
  predicate Stores(
    before: Store, after: Store, id: Id, body: string, redacts: bool, redactionId: Id, disk: Disk,
    result: IngestionResult)
  {
    var number := before.Current() + 1;
    if id in before.KnownEvents() then
      after.events == before.events && after.diagnostics == before.diagnostics && result == Accepted
    else if !disk.events then
      after.events == before.events && after.diagnostics == before.diagnostics && after.counter == Some(number)
      && result == Threw
    else
      && after.events == before.events + [Stored(id, number, body, redacts)] && after.counter == Some(number)
      && if !redacts || redactionId in before.KnownDiagnostics() then
           after.diagnostics == before.diagnostics && result == Accepted
         else if disk.diagnostics then
           after.diagnostics == before.diagnostics + [Diagnostic(redactionId, SecretRedacted(id))]
           && result == Accepted
         else after.diagnostics == before.diagnostics && result == Threw
  }

  /** Too long, not JSON, not an event, or an event: in this order. */
  predicate Treats(
    judge: Judge, before: Store, after: Store, item: Item, redactionId: Id, disk: Disk, result: IngestionResult)
  {
    if item.actualByteLength > 65536 then
      Rejects(before, after, Diagnostic(item.id, OverLimit(item.actualByteLength, item.previewByteLength)), TooLarge,
              disk.diagnostics, result)
    else match judge(item.content)
      case BadJson =>
        Rejects(before, after, Diagnostic(item.id, InvalidJson(item.previewByteLength)), Malformed, disk.diagnostics,
                result)
      case BadSchema =>
        Rejects(before, after, Diagnostic(item.id, InvalidSchema), Invalid, disk.diagnostics, result)
      case Valid(body, redacts) => Stores(before, after, item.id, body, redacts, redactionId, disk, result)
  }

  lemma IngestedTreats(judge: Judge, s: Store, item: Item, redactionId: Id, disk: Disk)
    ensures var (after, result) := Ingested(judge, s, item, redactionId, disk);
            Treats(judge, s, after, item, redactionId, disk, result)
  {
    hide EventIds, DiagnosticIds, MaximumSequence;
    if !Good(judge, item) {
      OneUnseen(s.KnownDiagnostics(), Diagnostic(item.id, ReasonFor(judge, item)));
    } else {
      OneUnseen(s.KnownDiagnostics(), Diagnostic(redactionId, SecretRedacted(item.id)));
    }
    hide Unseen;
  }

  lemma {:induction false} OneUnseen(known: set<Id>, d: Diagnostic)
    ensures Unseen(known, [d]) == if d.id in known then [] else [d]
  {
    assert [d][1..] == [];
  }

  predicate DistinctDiagnostics(diagnostics: seq<Diagnostic>)
  {
    forall j, k | 0 <= j < k < |diagnostics| :: diagnostics[j].id != diagnostics[k].id
  }

  lemma IdsOfCons(d: Diagnostic, tail: seq<Diagnostic>)
    ensures DiagnosticIds([d] + tail) == {d.id} + DiagnosticIds(tail)
  {
  }

  lemma DistinctCons(d: Diagnostic, tail: seq<Diagnostic>)
    ensures DistinctDiagnostics([d] + tail) <==> DistinctDiagnostics(tail) && d.id !in DiagnosticIds(tail)
  {
    if DistinctDiagnostics([d] + tail) {
      forall j, k | 0 <= j < k < |tail| ensures tail[j].id != tail[k].id {
        assert ([d] + tail)[j + 1] == tail[j] && ([d] + tail)[k + 1] == tail[k];
      }
      forall x | x in tail ensures x.id != d.id {
        var k :| 0 <= k < |tail| && tail[k] == x;
        assert ([d] + tail)[k + 1] == x && ([d] + tail)[0] == d;
      }
    }
  }

  /** One diagnostic of each new identifier is added, and nothing else. */
  lemma {:induction false} UnseenAreNew(known: set<Id>, diagnostics: seq<Diagnostic>)
    ensures DistinctDiagnostics(Unseen(known, diagnostics))
    ensures DiagnosticIds(Unseen(known, diagnostics)) == DiagnosticIds(diagnostics) - known
    ensures forall d | d in Unseen(known, diagnostics) :: d in diagnostics
    decreases |diagnostics|
  {
    if diagnostics != [] {
      var d, tail := diagnostics[0], diagnostics[1..];
      assert diagnostics == [d] + tail;
      IdsOfCons(d, tail);
      UnseenAreNew(known, tail);
      UnseenAreNew(known + {d.id}, tail);
      DistinctCons(d, Unseen(known + {d.id}, tail));
      IdsOfCons(d, Unseen(known + {d.id}, tail));
      hide DiagnosticIds, DistinctDiagnostics;
    }
  }

  /** All of them when all are new. */
  lemma {:induction false} AllNewAreAdded(known: set<Id>, diagnostics: seq<Diagnostic>)
    requires DiagnosticIds(diagnostics) !! known && DistinctDiagnostics(diagnostics)
    ensures Unseen(known, diagnostics) == diagnostics
    decreases |diagnostics|
  {
    if diagnostics != [] {
      var d, tail := diagnostics[0], diagnostics[1..];
      assert diagnostics == [d] + tail;
      IdsOfCons(d, tail);
      DistinctCons(d, tail);
      hide DiagnosticIds, DistinctDiagnostics;
      AllNewAreAdded(known + {d.id}, tail);
    }
  }

  /** A list of records, up to the first one whose ingestion throws. */
  function IngestedAll(judge: Judge, s: Store, items: seq<Item>, random: nat, disk: nat -> Disk): (Store, bool)
    decreases |items|
  {
    if items == [] then (s, true)
    else
      var (after, result) := Ingested(judge, s, items[0], Random(random), disk(random));
      if result == Threw then (after, false) else IngestedAll(judge, after, items[1..], random + 1, disk)
  }

  // --- the stores ------------------------------------------------------------------------------------

  /** `EventStore`: the log of every session, and for some of them the identifiers in it. */
  class EventStore {
    var files: map<string, seq<Stored>>
    var knownIds: map<string, set<Id>>

    constructor (files: map<string, seq<Stored>>)
      ensures this.files == files && knownIds == map[]
    {
      this.files, knownIds := files, map[];
    }

    function Known(sessionId: string): set<Id>
      requires sessionId in files
      reads this
    {
      if sessionId in knownIds then knownIds[sessionId] else EventIds(files[sessionId])
    }

    method HasId(sessionId: string, id: Id) returns (has: bool)
      requires sessionId in files
      modifies this`knownIds
      ensures has <==> id in old(Known(sessionId))
      ensures knownIds == old(knownIds)[sessionId := old(Known(sessionId))]
    {
      if sessionId !in knownIds {
        knownIds := knownIds[sessionId := EventIds(files[sessionId])];
      }
      has := id in knownIds[sessionId];
    }

    /** `None` when the file cannot be written. */
    method Append(sessionId: string, event: Stored, writable: bool) returns (appended: Option<bool>)
      requires sessionId in files
      modifies this
      ensures appended == if event.id in old(Known(sessionId)) then Some(false)
                          else if writable then Some(true) else None
      ensures appended == Some(true) ==>
        && files == old(files)[sessionId := old(files[sessionId]) + [event]]
        && knownIds == old(knownIds)[sessionId := old(Known(sessionId)) + {event.id}]
      ensures appended != Some(true) ==>
        files == old(files) && knownIds == old(knownIds)[sessionId := old(Known(sessionId))]
    {
      if sessionId !in knownIds {
        knownIds := knownIds[sessionId := EventIds(files[sessionId])];
      }
      if event.id in knownIds[sessionId] { return Some(false); }
      if !writable { return None; }
      files := files[sessionId := files[sessionId] + [event]];
      knownIds := knownIds[sessionId := knownIds[sessionId] + {event.id}];
      return Some(true);
    }

    /** The cache is emptied at once, the file by an atomic replacement that takes its time. `done` says whether
        that has happened by the time the call settles; it may have failed, or still be running. */
    method Clear(sessionId: string, done: bool)
      requires sessionId in files
      modifies this
      ensures files == if done then old(files)[sessionId := []] else old(files)
      ensures knownIds == old(knownIds)[sessionId := {}]
    {
      knownIds := knownIds[sessionId := {}];
      if done { files := files[sessionId := []]; }
    }

    /** A replacement that was still running lands; the cache is left as it is by now. */
    method Land(sessionId: string)
      requires sessionId in files
      modifies this`files
      ensures files == old(files)[sessionId := []]
    {
      files := files[sessionId := []];
    }
  }

  /** `DiagnosticStore`: appends a list of diagnostics without those already there. */
  class DiagnosticStore {
    var files: map<string, seq<Diagnostic>>
    var knownIds: map<string, set<Id>>

    constructor (files: map<string, seq<Diagnostic>>)
      ensures this.files == files && knownIds == map[]
    {
      this.files, knownIds := files, map[];
    }

    function Known(sessionId: string): set<Id>
      requires sessionId in files
      reads this
    {
      if sessionId in knownIds then knownIds[sessionId] else DiagnosticIds(files[sessionId])
    }

    method Append(sessionId: string, diagnostics: seq<Diagnostic>, writable: bool) returns (threw: bool)
      requires sessionId in files
      modifies this
      ensures var known := old(Known(sessionId)); var added := Unseen(known, diagnostics);
              && threw == (added != [] && !writable)
              && (diagnostics == [] ==> files == old(files) && knownIds == old(knownIds))
              && (diagnostics != [] && (added == [] || !writable) ==>
                    files == old(files) && knownIds == old(knownIds)[sessionId := known])
              && (added != [] && writable ==>
                    && files == old(files)[sessionId := old(files[sessionId]) + added]
                    && knownIds == old(knownIds)[sessionId := known + DiagnosticIds(added)])
    {
      if diagnostics == [] { return false; }
      if sessionId !in knownIds {
        knownIds := knownIds[sessionId := DiagnosticIds(files[sessionId])];
      }
      var ids := knownIds[sessionId];
      var appended := FilterUnseen(ids, diagnostics);
      if appended == [] { return false; }
      if !writable { return true; }
      files := files[sessionId := files[sessionId] + appended];
      knownIds := knownIds[sessionId := ids + DiagnosticIds(appended)];
      return false;
    }

    /** The filter with its growing set of pending identifiers. */
    static method FilterUnseen(ids: set<Id>, diagnostics: seq<Diagnostic>) returns (appended: seq<Diagnostic>)
      ensures appended == Unseen(ids, diagnostics)
    {
      var pendingIds := ids;
      appended := [];
      for i := 0 to |diagnostics|
        invariant Unseen(ids, diagnostics) == appended + Unseen(pendingIds, diagnostics[i..])
      {
        assert diagnostics[i..][0] == diagnostics[i] && diagnostics[i..][1..] == diagnostics[i + 1..];
        if diagnostics[i].id !in pendingIds {
          pendingIds := pendingIds + {diagnostics[i].id};
          appended := appended + [diagnostics[i]];
        }
      }
      assert diagnostics[|diagnostics|..] == [];
    }

    /** The cache is emptied at once, the file by an atomic replacement that takes its time. `done` says whether
        that has happened by the time the call settles; it may have failed, or still be running. */
    method Clear(sessionId: string, done: bool)
      requires sessionId in files
      modifies this
      ensures files == if done then old(files)[sessionId := []] else old(files)
      ensures knownIds == old(knownIds)[sessionId := {}]
    {
      knownIds := knownIds[sessionId := {}];
      if done { files := files[sessionId := []]; }
    }

    /** A replacement that was still running lands; the cache is left as it is by now. */
    method Land(sessionId: string)
      requires sessionId in files
      modifies this`files
      ensures files == old(files)[sessionId := []]
    {
      files := files[sessionId := []];
    }
  }

  /** `EventSequence`: a counter read from the log once and then kept. */
  class EventSequence {
    const events: EventStore
    var values: map<string, nat>

    constructor (events: EventStore)
      ensures this.events == events && values == map[]
    {
      this.events, values := events, map[];
    }

    function Current(sessionId: string): nat
      requires sessionId in events.files
      reads this, events
    {
      if sessionId in values then values[sessionId] else MaximumSequence(events.files[sessionId])
    }

    method Next(sessionId: string) returns (value: nat)
      requires sessionId in events.files
      modifies this
      ensures value == old(Current(sessionId)) + 1
      ensures values == old(values)[sessionId := value]
    {
      var current: nat;
      if sessionId in values {
        current := values[sessionId];
      } else {
        var existing := events.files[sessionId];
        current := 0;
        for i := 0 to |existing|
          invariant current == MaximumSequence(existing[..i])
        {
          assert existing[..i + 1][..i] == existing[..i];
          current := Max(current, existing[i].sequence);
        }
        assert existing[..|existing|] == existing;
      }
      value := current + 1;
      values := values[sessionId := value];
    }

    method Reset(sessionId: string)
      modifies this
      ensures values == old(values) - {sessionId}
    {
      values := values - {sessionId};
    }
  }

  /** `IngestionService`, and with it the operations of the registry and the observer that drive it. */
  class IngestionService {
    const events: EventStore
    const diagnostics: DiagnosticStore
    const sequence: EventSequence

    constructor (events: EventStore, diagnostics: DiagnosticStore, sequence: EventSequence)
      requires sequence.events == events
      ensures this.events == events && this.diagnostics == diagnostics && this.sequence == sequence
    {
      this.events, this.diagnostics, this.sequence := events, diagnostics, sequence;
    }

    ghost predicate Has(sessionId: string)
      reads this, events, diagnostics
    {
      sequence.events == events && sessionId in events.files && sessionId in diagnostics.files
    }

    /** Everything there is about one session. */
    ghost function View(sessionId: string): Store
      requires Has(sessionId)
      reads this, events, diagnostics, sequence
    {
      Store(events.files[sessionId], diagnostics.files[sessionId],
            if sessionId in events.knownIds then Some(events.knownIds[sessionId]) else None,
            if sessionId in diagnostics.knownIds then Some(diagnostics.knownIds[sessionId]) else None,
            if sessionId in sequence.values then Some(sequence.values[sessionId]) else None)
    }

    /** Nothing but this session has changed. */
    twostate predicate OnlyChanges(sessionId: string)
      reads this, events, diagnostics, sequence
    {
      forall other | other != sessionId && old(Has(other)) :: Has(other) && View(other) == old(View(other))
    }

    /** Handing diagnostics to their store. */
    method Diagnose(sessionId: string, list: seq<Diagnostic>, writable: bool) returns (threw: bool)
      requires Has(sessionId)
      modifies diagnostics
      ensures Has(sessionId) && OnlyChanges(sessionId)
      ensures (View(sessionId), threw) == Diagnosed(old(View(sessionId)), list, writable)
    {
      threw := diagnostics.Append(sessionId, list, writable);
    }

    /** A record that validation accepts. */
    method Accept(sessionId: string, id: Id, body: string, redacted: bool, writable: bool)
      returns (stored: Option<bool>)
      requires Has(sessionId)
      modifies events, sequence
      ensures Has(sessionId) && OnlyChanges(sessionId)
      ensures var s := old(View(sessionId));
              && stored == (if id in s.KnownEvents() then Some(false) else if writable then Some(true) else None)
              && View(sessionId)
                 == if id in s.KnownEvents() then Remembered(s)
                    else if !writable then Numbered(s)
                    else Appended(Numbered(s), Stored(id, s.Current() + 1, body, redacted))
    {
      hide EventIds, MaximumSequence;
      var has := events.HasId(sessionId, id);
      if has { return Some(false); }
      var number := sequence.Next(sessionId);
      stored := events.Append(sessionId, Stored(id, number, body, redacted), writable);
    }

    method Ingest(judge: Judge, sessionId: string, item: Item, redactionId: Id, disk: Disk)
      returns (result: IngestionResult)
      requires Has(sessionId)
      requires item.actualByteLength <= MAX_INGESTION_RECORD_BYTES && !judge(item.content).BadJson?
      modifies events, diagnostics, sequence
      ensures Has(sessionId) && OnlyChanges(sessionId)
      ensures (View(sessionId), result) == Ingested(judge, old(View(sessionId)), item, redactionId, disk)
      ensures Treats(judge, old(View(sessionId)), View(sessionId), item, redactionId, disk, result)
    {
      hide Diagnosed, IngestionService.View, Remembered, Numbered, Appended, Treats;
      IngestedTreats(judge, View(sessionId), item, redactionId, disk);
      var verdict := judge(item.content);
      if !verdict.Valid? {
        var threw := Diagnose(sessionId, [Diagnostic(item.id, InvalidSchema)], disk.diagnostics);
        return if threw then Threw else Invalid;
      }
      var stored := Accept(sessionId, item.id, verdict.body, verdict.redacts, disk.events);
      if stored == Some(false) { return Accepted; }
      if stored == None { return Threw; }
      NothingDiagnosed(View(sessionId), disk.diagnostics);
      var reported := if verdict.redacts then [Diagnostic(redactionId, SecretRedacted(item.id))] else [];
      var threw := Diagnose(sessionId, reported, disk.diagnostics);
      return if threw then Threw else Accepted;
    }

    method IngestRecord(judge: Judge, sessionId: string, found: bool, item: Item, redactionId: Id, disk: Disk)
      returns (result: IngestionResult)
      requires Has(sessionId)
      modifies events, diagnostics, sequence
      ensures Has(sessionId) && OnlyChanges(sessionId)
      ensures result == NotFound <==> !found
      ensures !found ==> View(sessionId) == old(View(sessionId))
      ensures found ==> (View(sessionId), result) == Ingested(judge, old(View(sessionId)), item, redactionId, disk)
      ensures found ==> Treats(judge, old(View(sessionId)), View(sessionId), item, redactionId, disk, result)
    {
      if !found { return NotFound; }
      hide Diagnosed, IngestionService.View, Treats;
      IngestedTreats(judge, View(sessionId), item, redactionId, disk);
      if item.actualByteLength > MAX_INGESTION_RECORD_BYTES {
        var threw := Diagnose(
          sessionId, [Diagnostic(item.id, OverLimit(item.actualByteLength, item.previewByteLength))], disk.diagnostics);
        return if threw then Threw else TooLarge;
      }
      if judge(item.content).BadJson? {
        var threw := Diagnose(sessionId, [Diagnostic(item.id, InvalidJson(item.previewByteLength))], disk.diagnostics);
        return if threw then Threw else Malformed;
      }
      result := Ingest(judge, sessionId, item, redactionId, disk);
    }

    method IngestOversizedRecord(
        ghost judge: Judge, sessionId: string, found: bool, item: Item, ghost redactionId: Id, disk: Disk)
      returns (result: IngestionResult)
      requires Has(sessionId) && item.actualByteLength > MAX_INGESTION_RECORD_BYTES
      modifies events, diagnostics, sequence
      ensures Has(sessionId) && OnlyChanges(sessionId)
      ensures result == NotFound <==> !found
      ensures !found ==> View(sessionId) == old(View(sessionId))
      ensures found ==> (View(sessionId), result) == Ingested(judge, old(View(sessionId)), item, redactionId, disk)
      ensures found ==> Treats(judge, old(View(sessionId)), View(sessionId), item, redactionId, disk, result)
    {
      if !found { return NotFound; }
      hide Diagnosed, IngestionService.View, Treats;
      IngestedTreats(judge, View(sessionId), item, redactionId, disk);
      var threw := Diagnose(
        sessionId, [Diagnostic(item.id, OverLimit(item.actualByteLength, item.previewByteLength))], disk.diagnostics);
      return if threw then Threw else TooLarge;
    }
  }
}
