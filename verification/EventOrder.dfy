/** Stored events, the order in which logs are shown, and what a stable sort is. */
module EventOrder {
  import opened Common

  /** `localeCompare` is a total preorder on strings. Strings are countable, so every such
      preorder compares the images of some map into the reals; the map is left arbitrary. */
  type Collation = string -> real

  /** A stored event; `payload` stands for the fields no ordering or filter looks at. */
  datatype Event = Event(id: string, sequence: int, timestamp: real, hypothesisId: string, payload: string)

  function CompareEvents(c: Collation, left: Event, right: Event): real
  {
    if left.timestamp != right.timestamp then left.timestamp - right.timestamp
    else if left.sequence != right.sequence then (left.sequence - right.sequence) as real
    else c(left.id) - c(right.id)
  }

  predicate AtMost(c: Collation, left: Event, right: Event) { CompareEvents(c, left, right) <= 0.0 }

  predicate Tied(c: Collation, left: Event, right: Event) { CompareEvents(c, left, right) == 0.0 }

  ghost predicate Sorted(c: Collation, s: seq<Event>)
  {
    forall i, j | 0 <= i < j < |s| :: AtMost(c, s[i], s[j])
  }

  /** The events of `s` that tie with `e`, in the order in which `s` has them. */
  function Ties(c: Collation, s: seq<Event>, e: Event): seq<Event>
  {
    if s == [] then []
    else if Tied(c, s[0], e) then [s[0]] + Ties(c, s[1..], e)
    else Ties(c, s[1..], e)
  }

  ghost predicate SameTies(c: Collation, a: seq<Event>, b: seq<Event>)
  {
    forall e :: Ties(c, a, e) == Ties(c, b, e)
  }

  /** `output` is a stable sort of `input`: ascending, and events that tie keep their input order. */
  ghost predicate StableSortOf(c: Collation, output: seq<Event>, input: seq<Event>)
  {
    Sorted(c, output) && SameTies(c, output, input)
  }

  function Insert(c: Collation, e: Event, s: seq<Event>): seq<Event>
  {
    if s == [] || AtMost(c, e, s[0]) then [e] + s else [s[0]] + Insert(c, e, s[1..])
  }

  /** The reference stable sort, `Array.prototype.sort` with `compareEvents`. */
  function StableSort(c: Collation, s: seq<Event>): seq<Event>
  {
    if s == [] then [] else Insert(c, s[0], StableSort(c, s[1..]))
  }

  lemma {:induction false} TiesAppend(c: Collation, a: seq<Event>, b: seq<Event>, e: Event)
    ensures Ties(c, a + b, e) == Ties(c, a, e) + Ties(c, b, e)
  {
    if a == [] {
      assert a + b == b;
    } else {
      assert (a + b)[1..] == a[1..] + b;
      TiesAppend(c, a[1..], b, e);
    }
  }

  lemma SameTiesAppend(c: Collation, a: seq<Event>, a': seq<Event>, b: seq<Event>, b': seq<Event>)
    requires SameTies(c, a, a') && SameTies(c, b, b')
    ensures SameTies(c, a + b, a' + b')
  {
    forall e ensures Ties(c, a + b, e) == Ties(c, a' + b', e) {
      TiesAppend(c, a, b, e);
      TiesAppend(c, a', b', e);
    }
  }

  /** If everything in `s` lies strictly above `e`, nothing in `s` ties with `e`. */
  lemma {:induction false} NoTies(c: Collation, s: seq<Event>, e: Event)
    requires forall x | x in s :: !Tied(c, x, e)
    ensures Ties(c, s, e) == []
  {
    if s != [] { NoTies(c, s[1..], e); }
  }

  lemma {:induction false} TiesMember(c: Collation, s: seq<Event>, e: Event)
    ensures Ties(c, s, e) != [] ==> exists x | x in s :: Tied(c, x, e)
    ensures (exists x | x in s :: Tied(c, x, e)) ==> Ties(c, s, e) != []
  {
    if s != [] { TiesMember(c, s[1..], e); }
  }

  lemma {:induction false} HeadTies(c: Collation, s: seq<Event>)
    requires s != []
    ensures Ties(c, s, s[0]) == [s[0]] + Ties(c, s[1..], s[0])
  {
  }

  lemma {:induction false} InsertIsStable(c: Collation, e: Event, s: seq<Event>)
    requires Sorted(c, s)
    ensures StableSortOf(c, Insert(c, e, s), [e] + s)
    ensures forall x :: x in Insert(c, e, s) <==> x == e || x in s
  {
    var out := Insert(c, e, s);
    assert ([e] + s)[1..] == s;
    if s == [] || AtMost(c, e, s[0]) {
      assert out == [e] + s;
    } else {
      InsertIsStable(c, e, s[1..]);
      var rest := Insert(c, e, s[1..]);
      assert out[1..] == rest;
      forall t ensures Ties(c, out, t) == Ties(c, [e] + s, t) {
        assert Ties(c, rest, t) == Ties(c, [e] + s[1..], t);
        assert ([e] + s[1..])[1..] == s[1..];
      }
      forall i, j | 0 <= i < j < |out| ensures AtMost(c, out[i], out[j]) {
        if i == 0 { assert out[j] in rest; }
      }
    }
  }

  /** The reference sort is a stable sort. */
  lemma {:induction false} StableSortIsStable(c: Collation, s: seq<Event>)
    ensures StableSortOf(c, StableSort(c, s), s)
  {
    if s != [] {
      StableSortIsStable(c, s[1..]);
      var rest := StableSort(c, s[1..]);
      InsertIsStable(c, s[0], rest);
      forall e ensures Ties(c, StableSort(c, s), e) == Ties(c, s, e) {
        assert ([s[0]] + rest)[1..] == rest;
        assert Ties(c, [s[0]] + rest, e) == Ties(c, s, e);
      }
    }
  }

  /** A stable sort of a given input is unique, so the two properties determine the result. */
  lemma {:induction false} StableSortUnique(c: Collation, a: seq<Event>, b: seq<Event>)
    requires Sorted(c, a) && Sorted(c, b) && SameTies(c, a, b)
    ensures a == b
  {
    if a == [] {
      if b != [] { HeadTies(c, b); }
    } else {
      var x := a[0];
      assert Ties(c, a, x) == Ties(c, b, x);
      TiesMember(c, b, x);
      var y := b[0];
      assert Ties(c, a, y) == Ties(c, b, y);
      TiesMember(c, a, y);
      assert Tied(c, y, x);
      assert x == Ties(c, a, x)[0] == Ties(c, b, x)[0] == y;
      forall e ensures Ties(c, a[1..], e) == Ties(c, b[1..], e) {
        assert Ties(c, a, e) == Ties(c, b, e);
        if Tied(c, x, e) {
          assert Ties(c, a[1..], e) == Ties(c, a, e)[1..];
          assert Ties(c, b[1..], e) == Ties(c, b, e)[1..];
        }
      }
      StableSortUnique(c, a[1..], b[1..]);
    }
  }

  lemma {:induction false} StableSortLength(c: Collation, s: seq<Event>)
    ensures |StableSort(c, s)| == |s|
  {
    if s != [] {
      StableSortLength(c, s[1..]);
      InsertLength(c, s[0], StableSort(c, s[1..]));
    }
  }

  lemma {:induction false} InsertLength(c: Collation, e: Event, s: seq<Event>)
    ensures |Insert(c, e, s)| == |s| + 1
  {
    if s != [] && !AtMost(c, e, s[0]) { InsertLength(c, e, s[1..]); }
  }

  // --- what the order means ------------------------------------------------------------------------

  /** By timestamp, then by sequence number, then by identifier as the collation ranks it; smallest first. */
  ghost predicate Ascending(c: Collation, s: seq<Event>)
  {
    forall i, j | 0 <= i < j < |s| ::
      || s[i].timestamp < s[j].timestamp
      || (s[i].timestamp == s[j].timestamp && s[i].sequence < s[j].sequence)
      || (s[i].timestamp == s[j].timestamp && s[i].sequence == s[j].sequence && c(s[i].id) <= c(s[j].id))
  }

  /** The events that have these three keys, in order of appearance. */
  function Having(c: Collation, s: seq<Event>, timestamp: real, sequence: int, rank: real): seq<Event>
  {
    if s == [] then []
    else
      var rest := Having(c, s[1..], timestamp, sequence, rank);
      if s[0].timestamp == timestamp && s[0].sequence == sequence && c(s[0].id) == rank then [s[0]] + rest else rest
  }

  /** `listed` holds the same events in ascending order, and those alike in all three keys in their old order. */
  ghost predicate Lists(c: Collation, listed: seq<Event>, events: seq<Event>)
  {
    && Ascending(c, listed) && multiset(listed) == multiset(events)
    && forall t: real, q: int, r: real :: Having(c, listed, t, q, r) == Having(c, events, t, q, r)
  }

  lemma {:induction false} InsertPermutes(c: Collation, e: Event, s: seq<Event>)
    ensures multiset(Insert(c, e, s)) == multiset(s) + multiset{e}
  {
    if s != [] {
      InsertPermutes(c, e, s[1..]);
      assert s == [s[0]] + s[1..];
    }
  }

  lemma {:induction false} SortPermutes(c: Collation, s: seq<Event>)
    ensures multiset(StableSort(c, s)) == multiset(s)
  {
    if s != [] {
      SortPermutes(c, s[1..]);
      InsertPermutes(c, s[0], StableSort(c, s[1..]));
      assert s == [s[0]] + s[1..];
    }
  }

  lemma {:induction false} HavingIsTies(c: Collation, s: seq<Event>, e: Event)
    ensures Having(c, s, e.timestamp, e.sequence, c(e.id)) == Ties(c, s, e)
  {
    if s != [] { HavingIsTies(c, s[1..], e); }
  }

  lemma {:induction false} HavingNone(c: Collation, s: seq<Event>, timestamp: real, sequence: int, rank: real)
    requires forall e | e in s :: !(e.timestamp == timestamp && e.sequence == sequence && c(e.id) == rank)
    ensures Having(c, s, timestamp, sequence, rank) == []
  {
    if s != [] { HavingNone(c, s[1..], timestamp, sequence, rank); }
  }

  /** The sorted list is the events in the order of timestamp, sequence number and identifier. */
  lemma {:induction false} StableSortLists(c: Collation, s: seq<Event>)
    ensures Lists(c, StableSort(c, s), s)
  {
    var listed := StableSort(c, s);
    StableSortIsStable(c, s);
    SortPermutes(c, s);
    AscendingIsSorted(c, listed);
    hide StableSort, Ties, Sorted, Ascending;
    forall t: real, q: int, r: real ensures Having(c, listed, t, q, r) == Having(c, s, t, q, r) {
      if e :| e in s && e.timestamp == t && e.sequence == q && c(e.id) == r {
        HavingIsTies(c, s, e);
        HavingIsTies(c, listed, e);
      } else {
        assert forall e :: e in listed <==> e in multiset(listed);
        assert forall e :: e in s <==> e in multiset(s);
        HavingNone(c, s, t, q, r);
        HavingNone(c, listed, t, q, r);
      }
    }
  }

  lemma AscendingIsSorted(c: Collation, s: seq<Event>)
    ensures Sorted(c, s) <==> Ascending(c, s)
  {
    assert forall i, j | 0 <= i < j < |s| :: AtMost(c, s[i], s[j]) <==>
      || s[i].timestamp < s[j].timestamp
      || (s[i].timestamp == s[j].timestamp && s[i].sequence < s[j].sequence)
      || (s[i].timestamp == s[j].timestamp && s[i].sequence == s[j].sequence && c(s[i].id) <= c(s[j].id));
  }
}
