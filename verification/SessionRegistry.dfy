/** `SessionRegistry.reset`: six clearings side by side, then the counter, and the new epoch last. */
module SessionRegistry {
  import opened Common
  import opened DirectAppend
  import opened Ingestion
  import opened IngestionMachine
  import opened DirectIngestion

  /** How an atomic replacement ends: it can throw before the rename or after it. */
  datatype Replacement = Written | NotWritten | WrittenButThrew

  class SessionRegistry {
    const ingestion: IngestionService
    const observer: DirectAppendObserver
    var epochs: map<string, string>          // session.json
    var sortFiles: map<string, set<string>>  // log-sort operations
    var spools: map<string, set<string>>     // query spools

    constructor (observer: DirectAppendObserver, epochs: map<string, string>)
      ensures this.observer == observer && this.ingestion == observer.ingestion && this.epochs == epochs
    {
      this.observer, this.ingestion, this.epochs := observer, observer.ingestion, epochs;
      this.sortFiles, this.spools := map[], map[];
    }

    ghost predicate Has(sessionId: string)
      reads this, observer, ingestion, ingestion.events, ingestion.diagnostics
    {
      && observer.ingestion == ingestion && ingestion.Has(sessionId)
      && sessionId in observer.incoming && sessionId in observer.cursors
    }

    /** The clearings that run side by side, as far as they have come when the first of them throws or all have
        settled. Those in `undone` have not touched their files by then. */
    method ClearAll(sessionId: string, undone: set<Part>)
      requires Has(sessionId)
      modifies this`sortFiles, this`spools, observer, ingestion.events, ingestion.diagnostics
      ensures Has(sessionId) && ingestion.OnlyChanges(sessionId)
      ensures ingestion.View(sessionId) == Cleared(old(ingestion.View(sessionId)), undone)
      ensures sortFiles == if SortFiles in undone then old(sortFiles) else old(sortFiles)[sessionId := {}]
      ensures spools == if Spools in undone then old(spools) else old(spools)[sessionId := {}]
      ensures observer.incoming
           == if Incoming in undone then old(observer.incoming) else old(observer.incoming)[sessionId := []]
      ensures observer.cursors
           == if Cursor in undone then old(observer.cursors) else old(observer.cursors)[sessionId := Offset(0)]
    {
      hide IngestionService.View, Cleared;
      ClearStores(sessionId, undone);
      sortFiles := if SortFiles in undone then sortFiles else sortFiles[sessionId := {}];
      spools := if Spools in undone then spools else spools[sessionId := {}];
      observer.incoming := if Incoming in undone then observer.incoming else observer.incoming[sessionId := []];
      observer.cursors := if Cursor in undone then observer.cursors else observer.cursors[sessionId := Offset(0)];
    }

    method ClearStores(sessionId: string, undone: set<Part>)
      requires Has(sessionId)
      modifies ingestion.events, ingestion.diagnostics
      ensures Has(sessionId) && ingestion.OnlyChanges(sessionId)
      ensures ingestion.View(sessionId) == Cleared(old(ingestion.View(sessionId)), undone)
    {
      ingestion.events.Clear(sessionId, Events !in undone);
      ingestion.diagnostics.Clear(sessionId, Diagnostics !in undone);
    }

    /** `throws` are the clearings that throw. As soon as one does, the reset throws and releases the lock; what is
        in `late` is still running then. Only when every clearing has succeeded is the counter dropped, and only
        then is the epoch replaced. */
    method Reset(
      sessionId: string, freshEpoch: string, throws: set<Part>, undone: set<Part>, late: set<Part>,
      metadata: Replacement)
      returns (epoch: Option<string>, threw: bool)
      requires Has(sessionId)
      requires late !! throws && late <= undone <= throws + late
      requires throws == {} ==> undone == {}
      modifies this, observer, ingestion.events, ingestion.diagnostics, ingestion.sequence
      ensures Has(sessionId) && ingestion.OnlyChanges(sessionId)
      ensures sessionId !in old(epochs) ==>
        epoch == None && !threw && epochs == old(epochs) && ingestion.View(sessionId) == old(ingestion.View(sessionId))
      ensures sessionId in old(epochs) ==>
        && (threw <==> throws != {} || metadata != Written)
        && epoch == (if threw then None else Some(freshEpoch))
      // a new epoch stands for a session in which everything has been cleared
      ensures sessionId in old(epochs) && throws == {} ==>
        && epochs == (if metadata == NotWritten then old(epochs) else old(epochs)[sessionId := freshEpoch])
        && ingestion.View(sessionId) == EMPTY
        && observer.incoming == old(observer.incoming)[sessionId := []]
        && observer.cursors == old(observer.cursors)[sessionId := Offset(0)]
        && sortFiles == old(sortFiles)[sessionId := {}] && spools == old(spools)[sessionId := {}]
      // otherwise the old epoch and the counter stand, the caches are empty, and what is undone may land later
      ensures sessionId in old(epochs) && throws != {} ==>
        && epochs == old(epochs)
        && ingestion.View(sessionId) == Cleared(old(ingestion.View(sessionId)), undone)
        && observer.incoming
           == (if Incoming in undone then old(observer.incoming) else old(observer.incoming)[sessionId := []])
        && observer.cursors
           == (if Cursor in undone then old(observer.cursors) else old(observer.cursors)[sessionId := Offset(0)])
        && sortFiles == (if SortFiles in undone then old(sortFiles) else old(sortFiles)[sessionId := {}])
        && spools == (if Spools in undone then old(spools) else old(spools)[sessionId := {}])
    {
      if sessionId !in epochs { return None, false; }
      ClearAll(sessionId, undone);
      if throws != {} { return None, true; }
      DropCounter(sessionId);
      if metadata == NotWritten { return None, true; }
      epochs := epochs[sessionId := freshEpoch];
      if metadata == WrittenButThrew { return None, true; }
      return Some(freshEpoch), false;
    }

    method DropCounter(sessionId: string)
      requires Has(sessionId)
      modifies ingestion.sequence
      ensures Has(sessionId) && ingestion.OnlyChanges(sessionId)
      ensures ingestion.View(sessionId) == old(ingestion.View(sessionId)).(counter := None)
    {
      ingestion.sequence.Reset(sessionId);
    }

    /** A clearing that was still running lands, under no lock. */
    method LandLate(sessionId: string, part: Part)
      requires Has(sessionId)
      modifies this`sortFiles, this`spools, observer, ingestion.events, ingestion.diagnostics
      ensures Has(sessionId) && ingestion.OnlyChanges(sessionId)
      ensures ingestion.View(sessionId)
           == match part
              case Events => old(ingestion.View(sessionId)).(events := [])
              case Diagnostics => old(ingestion.View(sessionId)).(diagnostics := [])
              case _ => old(ingestion.View(sessionId))
      ensures observer.incoming
           == if part == Incoming then old(observer.incoming)[sessionId := []] else old(observer.incoming)
      ensures observer.cursors
           == if part == Cursor then old(observer.cursors)[sessionId := Offset(0)] else old(observer.cursors)
    {
      match part
      case Events => ingestion.events.Land(sessionId);
      case Diagnostics => ingestion.diagnostics.Land(sessionId);
      case Incoming => observer.incoming := observer.incoming[sessionId := []];
      case Cursor => observer.cursors := observer.cursors[sessionId := Offset(0)];
      case SortFiles => sortFiles := sortFiles[sessionId := {}];
      case Spools => spools := spools[sessionId := {}];
    }
  }

  // --- caches after a clearing ----------------------------------------------------------------------------

  /** A run of successful appends. */
  function AppendedAll(s: Store, events: seq<Stored>): Store
  {
    if events == [] then s else Appended(AppendedAll(s, events[..|events| - 1]), events[|events| - 1])
  }

  lemma EventIdsConcat(a: seq<Stored>, b: seq<Stored>)
    ensures EventIds(a + b) == EventIds(a) + EventIds(b)
  {
  }

  lemma {:induction false} AppendedAllIs(s: Store, events: seq<Stored>)
    requires s.eventIds.Some?
    ensures AppendedAll(s, events).events == s.events + events
    ensures AppendedAll(s, events).eventIds == Some(s.eventIds.value + EventIds(events))
  {
    if events == [] {
      assert s.events + [] == s.events;
      assert s.eventIds.value + EventIds([]) == s.eventIds.value;
    } else {
      var front, last := events[..|events| - 1], events[|events| - 1];
      AppendedAllIs(s, front);
      EventIdsConcat(front, [last]);
      assert events == front + [last] && EventIds([last]) == {last.id};
      assert s.events + events == (s.events + front) + [last];
      assert s.eventIds.value + EventIds(events) == (s.eventIds.value + EventIds(front)) + {last.id};
    }
  }

  /** After a clearing has emptied the cache of the event log, `since` is appended, then the clearing of the file
      lands or not, then `later` is appended. The cache is exact in the end if and only if nothing was appended
      before the clearing landed or, when it never lands, everything the file held has been appended again. */
  lemma EventCacheExactIff(s: Store, since: seq<Stored>, landed: bool, later: seq<Stored>)
    requires EventIds(since) !! EventIds(later)
    ensures var started := AppendedAll(Cleared(s, {Events}), since);
            var after := AppendedAll(if landed then started.(events := []) else started, later);
            after.eventIds == Some(EventIds(after.events))
            <==> if landed then since == [] else EventIds(s.events) <= EventIds(since) + EventIds(later)
  {
    hide AppendedAll, EventIds;
    var cleared := Cleared(s, {Events});
    var started := AppendedAll(cleared, since);
    AppendedAllIs(cleared, since);
    AppendedAllIs(if landed then started.(events := []) else started, later);
    EventIdsConcat(s.events, since);
    EventIdsConcat(s.events + since, later);
    assert [] + later == later;
    SomeId(since);
    var here, there, before := EventIds(since), EventIds(later), EventIds(s.events);
    assert {} + here + there == here + there;
    if landed {
      assert here + there == there <==> here == {} by { if here != {} { var x :| x in here; assert x !in there; } }
    } else {
      assert here + there == before + here + there <==> before <= here + there;
    }
  }

  lemma SomeId(events: seq<Stored>)
    ensures EventIds(events) == {} <==> events == []
  {
    if events != [] { assert events[0].id in EventIds(events); }
  }

  /** Both ways out happen: a log of one event that is not cleared after all is forgotten, and an event that is
      appended before the clearing lands is remembered although it is gone. */
  lemma CacheIsWrongExamples(s: Store, x: Stored)
    requires s.events == [x]
    ensures Cleared(s, {Events}).events == [x] && Cleared(s, {Events}).eventIds == Some({})
    ensures var late := AppendedAll(Cleared(s, {Events}), [x]).(events := []);
            late.events == [] && late.eventIds == Some({x.id})
  {
    AppendedAllIs(Cleared(s, {Events}), [x]);
    assert {} + EventIds([x]) == {x.id};
  }
}
