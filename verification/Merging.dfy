/** The k-way merge of sorted runs, as a function of what each reader still has to deliver. */
module Merging {
  import opened Common
  import opened EventOrder

  /** Run `i` has the smallest head, and no earlier run has an equally small one. */
  ghost predicate Picks(c: Collation, runs: seq<seq<Event>>, i: nat)
  {
    && i < |runs| && runs[i] != []
    && (forall j | 0 <= j < i && runs[j] != [] :: CompareEvents(c, runs[i][0], runs[j][0]) < 0.0)
    && (forall j | i < j < |runs| && runs[j] != [] :: AtMost(c, runs[i][0], runs[j][0]))
  }

  ghost predicate Exhausted(runs: seq<seq<Event>>)
  {
    forall i | 0 <= i < |runs| :: runs[i] == []
  }

  /** The selection scan: a run replaces the selected one only if its head is strictly smaller. */
  function Selected(c: Collation, runs: seq<seq<Event>>): (r: Option<nat>)
    ensures r.None? ==> Exhausted(runs)
    ensures r.Some? ==> Picks(c, runs, r.value)
  {
    if runs == [] then None
    else
      var last := |runs| - 1;
      var before := Selected(c, runs[..last]);
      if runs[last] != [] && (before.None? || CompareEvents(c, runs[last][0], runs[before.value][0]) < 0.0)
      then Some(last) else before
  }

  lemma {:induction false} ConcatSplit<T>(runs: seq<seq<T>>, i: nat)
    requires i < |runs|
    ensures Concat(runs) == Concat(runs[..i]) + runs[i] + Concat(runs[i + 1..])
  {
    assert runs == runs[..i] + runs[i..];
    ConcatAppend(runs[..i], runs[i..]);
    assert runs[i..][1..] == runs[i + 1..];
  }

  lemma ConcatDropHead<T>(runs: seq<seq<T>>, i: nat)
    requires i < |runs| && runs[i] != []
    ensures |Concat(runs[i := runs[i][1..]])| < |Concat(runs)|
  {
    var after := runs[i := runs[i][1..]];
    ConcatSplit(runs, i);
    ConcatSplit(after, i);
    assert after[..i] == runs[..i] && after[i + 1..] == runs[i + 1..];
  }

  /** Repeatedly deliver the selected head. */
  ghost function MergeAll(c: Collation, runs: seq<seq<Event>>): seq<Event>
    decreases |Concat(runs)|
  {
    match Selected(c, runs)
    case None => []
    case Some(i) =>
      ConcatDropHead(runs, i);
      [runs[i][0]] + MergeAll(c, runs[i := runs[i][1..]])
  }

  lemma {:induction false} ConcatOfExhausted<T>(runs: seq<seq<T>>)
    requires forall i | 0 <= i < |runs| :: runs[i] == []
    ensures Concat(runs) == []
  {
    if runs != [] { ConcatOfExhausted(runs[1..]); }
  }

  ghost predicate AllSorted(c: Collation, runs: seq<seq<Event>>)
  {
    forall i | 0 <= i < |runs| :: Sorted(c, runs[i])
  }

  lemma {:induction false} ConcatMember<T>(runs: seq<seq<T>>, x: T)
    ensures x in Concat(runs) <==> exists i :: 0 <= i < |runs| && x in runs[i]
  {
    if runs != [] {
      ConcatMember(runs[1..], x);
      if x in Concat(runs[1..]) {
        var i :| 0 <= i < |runs[1..]| && x in runs[1..][i];
        assert x in runs[i + 1];
      }
      if i :| 0 <= i < |runs| && x in runs[i] {
        if i > 0 { assert x in runs[1..][i - 1]; }
      }
    }
  }

  /** Nothing that sorted runs still hold lies below the picked head. */
  lemma {:induction false} HeadIsLeast(c: Collation, runs: seq<seq<Event>>, i: nat, x: Event)
    requires AllSorted(c, runs) && Picks(c, runs, i)
    requires x in Concat(runs)
    ensures AtMost(c, runs[i][0], x)
  {
    ConcatMember(runs, x);
    var j :| 0 <= j < |runs| && x in runs[j];
    var k :| 0 <= k < |runs[j]| && x == runs[j][k];
    assert AtMost(c, runs[j][0], x) by { if k > 0 { assert Sorted(c, runs[j]); } }
  }

  lemma {:induction false} TiesHead(c: Collation, s: seq<Event>, e: Event)
    requires s != []
    ensures Ties(c, s, e) == (if Tied(c, s[0], e) then [s[0]] else []) + Ties(c, s[1..], e)
  {
  }

  /** The runs in front of the picked one hold nothing that ties with its head. */
  lemma {:induction false} NoTiesBefore(c: Collation, runs: seq<seq<Event>>, i: nat, e: Event)
    requires AllSorted(c, runs) && Picks(c, runs, i) && Tied(c, runs[i][0], e)
    ensures Ties(c, Concat(runs[..i]), e) == []
  {
    forall x | x in Concat(runs[..i]) ensures !Tied(c, x, e) {
      ConcatMember(runs[..i], x);
      var j :| 0 <= j < i && x in runs[..i][j];
      var k :| 0 <= k < |runs[j]| && x == runs[j][k];
      assert AtMost(c, runs[j][0], x) by { if k > 0 { assert Sorted(c, runs[j]); } }
    }
    NoTies(c, Concat(runs[..i]), e);
  }

  /** Taking the picked head first leaves the order of every group of ties unchanged. */
  lemma PickKeepsTies(c: Collation, runs: seq<seq<Event>>, i: nat, e: Event)
    requires AllSorted(c, runs) && Picks(c, runs, i)
    ensures Ties(c, Concat(runs), e)
         == (if Tied(c, runs[i][0], e) then [runs[i][0]] else []) + Ties(c, Concat(runs[i := runs[i][1..]]), e)
  {
    hide Ties, Concat, CompareEvents, AllSorted, Sorted;
    var after := runs[i := runs[i][1..]];
    var before, tail := Concat(runs[..i]), Concat(runs[i + 1..]);
    ConcatSplit(runs, i);
    ConcatSplit(after, i);
    assert after[..i] == runs[..i] && after[i + 1..] == runs[i + 1..];
    TiesAppend(c, before + runs[i], tail, e);
    TiesAppend(c, before, runs[i], e);
    TiesAppend(c, before + after[i], tail, e);
    TiesAppend(c, before, after[i], e);
    TiesHead(c, runs[i], e);
    if Tied(c, runs[i][0], e) { NoTiesBefore(c, runs, i, e); }
  }

  /** The k-way merge of sorted runs is a stable sort of their concatenation. */
  lemma {:induction false} MergeIsStableSort(c: Collation, runs: seq<seq<Event>>)
    requires AllSorted(c, runs)
    ensures StableSortOf(c, MergeAll(c, runs), Concat(runs))
    decreases |Concat(runs)|
  {
    var r := Selected(c, runs);
    if r.None? {
      ConcatOfExhausted(runs);
    } else {
      var i := r.value;
      var after := runs[i := runs[i][1..]];
      ConcatDropHead(runs, i);
      forall k | 0 <= k < |after| ensures Sorted(c, after[k]) { assert Sorted(c, runs[k]); }
      MergeIsStableSort(c, after);
      var out, rest := MergeAll(c, runs), MergeAll(c, after);
      assert out == [runs[i][0]] + rest && out[1..] == rest;
      forall e ensures Ties(c, out, e) == Ties(c, Concat(runs), e) {
        PickKeepsTies(c, runs, i, e);
        assert Ties(c, rest, e) == Ties(c, Concat(after), e);
      }
      forall x | x in rest ensures AtMost(c, runs[i][0], x) {
        SameTiesMember(c, rest, Concat(after), x);
        ConcatSubset(runs, i, x);
        HeadIsLeast(c, runs, i, x);
      }
    }
  }

  lemma {:induction false} TiesSubset(c: Collation, s: seq<Event>, e: Event, x: Event)
    ensures x in Ties(c, s, e) <==> x in s && Tied(c, x, e)
  {
    if s != [] { TiesSubset(c, s[1..], e, x); }
  }

  /** Sequences with the same ties have the same members. */
  lemma SameTiesMember(c: Collation, a: seq<Event>, b: seq<Event>, x: Event)
    requires SameTies(c, a, b)
    ensures x in a <==> x in b
  {
    assert Ties(c, a, x) == Ties(c, b, x);
    TiesSubset(c, a, x, x);
    TiesSubset(c, b, x, x);
  }

  lemma ConcatSubset<T>(runs: seq<seq<T>>, i: nat, x: T)
    requires i < |runs| && runs[i] != []
    requires x in Concat(runs[i := runs[i][1..]])
    ensures x in Concat(runs)
  {
    var after := runs[i := runs[i][1..]];
    ConcatSplit(runs, i);
    ConcatSplit(after, i);
    assert after[..i] == runs[..i] && after[i + 1..] == runs[i + 1..];
  }
}
