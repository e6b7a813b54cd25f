/** What a query runs over, in terms of the lines of the log. */
module QueryMeaning {
  import opened Common
  import opened Lines
  import QueryPage
  import Session = SessionSystem
  import SlurpPage

  type Classifier = seq<byte> -> QueryPage.Reading

  /** Lines of records, each empty or without a line end of its own. */
  predicate CleanLines(lines: seq<seq<byte>>) { forall i | 0 <= i < |lines| :: lines[i] == [] || OneLine(lines[i]) }

  /** Not UTF-8 or not JSON. */
  predicate Bad(classify: Classifier, line: seq<byte>) { line != [] && !classify(line).Record? }

  /** A record numbered up to `watermark`, of one of the hypotheses or of any when none is asked for. */
  predicate Wanted(classify: Classifier, hypotheses: seq<string>, watermark: real, line: seq<byte>)
  {
    && line != [] && classify(line).Record?
    && classify(line).sequence.Some? && classify(line).sequence.value <= watermark
    && (|hypotheses| > 0 ==> classify(line).hypothesis.Some? && classify(line).hypothesis.value in hypotheses)
  }

  /** `at` are the places, in order, of the wanted ones among lines `from` to `end`. */
  ghost predicate Places(
    classify: Classifier, hypotheses: seq<string>, watermark: real, lines: seq<seq<byte>>, from: nat, end: nat,
    at: seq<nat>)
  {
    && from <= end <= |lines| && Increasing(at)
    && forall i :: i in at <==> from <= i < end && Wanted(classify, hypotheses, watermark, lines[i])
  }

  predicate Increasing(at: seq<nat>) { forall j, k | 0 <= j < k < |at| :: at[j] < at[k] }

  lemma IncreasingCons(i: nat, at: seq<nat>)
    requires Increasing(at) && forall j | j in at :: i < j
    ensures Increasing([i] + at) && forall j :: j in [i] + at <==> j == i || j in at
  {
    var more := [i] + at;
    forall j, k | 0 <= j < k < |more| ensures more[j] < more[k] {
      assert more[k] == at[k - 1] && at[k - 1] in at;
    }
  }

  /** What the program yields for a line, before it stops there. */
  function Yield(e: QueryPage.Engine, line: seq<byte>): seq<QueryPage.Value>
  {
    if e.run(line).Outputs? then e.run(line).values else []
  }

  /** The outputs of the lines at the given places, one line after the other. */
  function YieldAt(e: QueryPage.Engine, lines: seq<seq<byte>>, at: seq<nat>): seq<QueryPage.Value>
    requires forall k | 0 <= k < |at| :: at[k] < |lines|
  {
    Concat(seq(|at|, k requires 0 <= k < |at| => Yield(e, lines[at[k]])))
  }

  /** A line that does not stop the run. */
  predicate Passes(e: QueryPage.Engine, hypotheses: seq<string>, watermark: real, line: seq<byte>)
  {
    && !Bad(e.classify, line)
    && (Wanted(e.classify, hypotheses, watermark, line) ==> e.run(line).Outputs? && !e.run(line).failed)
  }

  /** The run goes through lines `from` to `end` and to the end of the log, or stops at the one before `end`. */
  ghost predicate StopsAt(
    e: QueryPage.Engine, hypotheses: seq<string>, watermark: real, lines: seq<seq<byte>>, from: nat, end: nat,
    stop: QueryPage.Stop)
    requires from <= end <= |lines|
  {
    && (forall i | from <= i < end && (stop.Finished? || i < end - 1) :: Passes(e, hypotheses, watermark, lines[i]))
    && (stop.Finished? ==> end == |lines|)
    && (!stop.Finished? ==>
          && from < end && !Passes(e, hypotheses, watermark, lines[end - 1])
          && var last := lines[end - 1];
             if Bad(e.classify, last) then stop == QueryPage.Deferred(QueryPage.EvidenceMalformed)
             else if e.run(last).Unparsed? then stop == QueryPage.Immediate(QueryPage.EvidenceMalformed)
             else stop == QueryPage.Deferred(QueryPage.QueryFailed))
  }

  /** The run over lines `from` to the end of the log: the outputs of the wanted ones among lines `from` to `end`,
      where `end` is the end of the log or just behind the first line that stops the run. */
  ghost predicate RunsOver(
    e: QueryPage.Engine, hypotheses: seq<string>, watermark: real, lines: seq<seq<byte>>, from: nat, end: nat,
    at: seq<nat>, all: QueryPage.Run)
  {
    && Places(e.classify, hypotheses, watermark, lines, from, end, at)
    && (forall k | 0 <= k < |at| :: at[k] < |lines|)
    && all.values == YieldAt(e, lines, at) && StopsAt(e, hypotheses, watermark, lines, from, end, all.stop)
  }

  lemma YieldCons(e: QueryPage.Engine, lines: seq<seq<byte>>, i: nat, at: seq<nat>)
    requires i < |lines| && forall k | 0 <= k < |at| :: at[k] < |lines|
    ensures YieldAt(e, lines, [i] + at) == Yield(e, lines[i]) + YieldAt(e, lines, at)
    ensures YieldAt(e, lines, []) == []
  {
    var more := [i] + at;
    var parts := seq(|more|, k requires 0 <= k < |more| => Yield(e, lines[more[k]]));
    assert parts[1..] == seq(|at|, k requires 0 <= k < |at| => Yield(e, lines[at[k]]));
  }

  /** One line of the run. */
  lemma LineOfRun(e: QueryPage.Engine, scope: QueryPage.Scope, lines: seq<seq<byte>>, i: nat)
    requires CleanLines(lines) && i < |lines|
    ensures var here := QueryPage.RunFrom(e, scope, Joined(lines), |Joined(lines[..i])|, 0);
            var rest := QueryPage.RunFrom(e, scope, Joined(lines), |Joined(lines[..i + 1])|, 0);
            var line := lines[i];
            here
            == if Bad(e.classify, line) then QueryPage.Run([], QueryPage.Deferred(QueryPage.EvidenceMalformed))
               else if !Wanted(e.classify, scope.hypotheses, scope.watermark, line) then rest
               else if e.run(line).Unparsed? then
                 QueryPage.Run([], QueryPage.Immediate(QueryPage.EvidenceMalformed))
               else if e.run(line).failed then
                 QueryPage.Run(Yield(e, line), QueryPage.Deferred(QueryPage.QueryFailed))
               else QueryPage.Run(Yield(e, line) + rest.values, rest.stop)
  {
    JoinedLine(lines, i);
    hide Joined, LineEnd, TrimEnd;
    assert forall vs: seq<QueryPage.Value> :: vs[Min(0, |vs|)..] == vs;
  }

  lemma RunStops(
    e: QueryPage.Engine, hypotheses: seq<string>, watermark: real, lines: seq<seq<byte>>, i: nat,
    all: QueryPage.Run)
    returns (at: seq<nat>)
    requires i < |lines| && !Passes(e, hypotheses, watermark, lines[i])
    requires all == if Bad(e.classify, lines[i]) then
                      QueryPage.Run([], QueryPage.Deferred(QueryPage.EvidenceMalformed))
                    else if e.run(lines[i]).Unparsed? then
                      QueryPage.Run([], QueryPage.Immediate(QueryPage.EvidenceMalformed))
                    else QueryPage.Run(Yield(e, lines[i]), QueryPage.Deferred(QueryPage.QueryFailed))
    ensures RunsOver(e, hypotheses, watermark, lines, i, i + 1, at, all)
  {
    OnePlace(e.classify, hypotheses, watermark, lines, i);
    hide YieldAt, Places, Wanted, Bad, Yield;
    YieldCons(e, lines, i, []);
    at := if Wanted(e.classify, hypotheses, watermark, lines[i]) then [i] else [];
    assert [i] + [] == [i];
  }

  lemma OnePlace(classify: Classifier, hypotheses: seq<string>, watermark: real, lines: seq<seq<byte>>, i: nat)
    requires i < |lines|
    ensures Places(classify, hypotheses, watermark, lines, i, i + 1,
                   if Wanted(classify, hypotheses, watermark, lines[i]) then [i] else [])
    ensures Bad(classify, lines[i]) ==> !Wanted(classify, hypotheses, watermark, lines[i])
  {
  }

  lemma StopsAtSame(
    e: QueryPage.Engine, hypotheses: seq<string>, watermark: real, lines: seq<seq<byte>>, i: nat, end: nat,
    stop: QueryPage.Stop)
    requires i + 1 <= end <= |lines| && Passes(e, hypotheses, watermark, lines[i])
    requires StopsAt(e, hypotheses, watermark, lines, i + 1, end, stop)
    ensures StopsAt(e, hypotheses, watermark, lines, i, end, stop)
  {
    hide Passes, Bad;
  }

  lemma RunGoesOn(
    e: QueryPage.Engine, hypotheses: seq<string>, watermark: real, lines: seq<seq<byte>>, i: nat, end: nat,
    at: seq<nat>, rest: QueryPage.Run, all: QueryPage.Run)
    requires i < |lines| && Passes(e, hypotheses, watermark, lines[i])
    requires RunsOver(e, hypotheses, watermark, lines, i + 1, end, at, rest)
    requires all == if Wanted(e.classify, hypotheses, watermark, lines[i])
                    then QueryPage.Run(Yield(e, lines[i]) + rest.values, rest.stop) else rest
    ensures var at' := if Wanted(e.classify, hypotheses, watermark, lines[i]) then [i] + at else at;
            RunsOver(e, hypotheses, watermark, lines, i, end, at', all)
  {
    hide YieldAt, Passes, Wanted, Bad, Places, Yield, StopsAt;
    InRange(e.classify, hypotheses, watermark, lines, i + 1, end, at);
    PlacesCons(e.classify, hypotheses, watermark, lines, i, end, at);
    YieldCons(e, lines, i, at);
    StopsAtSame(e, hypotheses, watermark, lines, i, end, all.stop);
  }

  lemma InRange(
    classify: Classifier, hypotheses: seq<string>, watermark: real, lines: seq<seq<byte>>, from: nat, end: nat,
    at: seq<nat>)
    requires Places(classify, hypotheses, watermark, lines, from, end, at)
    ensures from <= end <= |lines| && forall k | 0 <= k < |at| :: at[k] < |lines|
  {
    forall k | 0 <= k < |at| ensures at[k] < |lines| { assert at[k] in at; }
  }

  lemma PlacesCons(
    classify: Classifier, hypotheses: seq<string>, watermark: real, lines: seq<seq<byte>>, i: nat, end: nat,
    at: seq<nat>)
    requires i < |lines| && Places(classify, hypotheses, watermark, lines, i + 1, end, at)
    ensures Places(classify, hypotheses, watermark, lines, i, end,
                   if Wanted(classify, hypotheses, watermark, lines[i]) then [i] + at else at)
  {
    hide Wanted, Increasing;
    if Wanted(classify, hypotheses, watermark, lines[i]) { IncreasingCons(i, at); }
  }

  /** The run from line `i` on, for every log: no line is left out that it should cover, and none is covered twice. */
  lemma {:induction false} RunCovers(
    e: QueryPage.Engine, hypotheses: seq<string>, watermark: real, lines: seq<seq<byte>>, i: nat)
    returns (end: nat, at: seq<nat>)
    requires CleanLines(lines) && i <= |lines|
    ensures var scope := QueryPage.Scope(hypotheses, watermark);
            RunsOver(e, hypotheses, watermark, lines, i, end, at,
                     QueryPage.RunFrom(e, scope, Joined(lines), |Joined(lines[..i])|, 0))
    decreases |lines| - i
  {
    var scope := QueryPage.Scope(hypotheses, watermark);
    if i == |lines| {
      assert lines[..i] == lines;
      return i, [];
    }
    hide QueryPage.RunFrom, Joined, RunsOver, Wanted, Bad;
    LineOfRun(e, scope, lines, i);
    var all := QueryPage.RunFrom(e, scope, Joined(lines), |Joined(lines[..i])|, 0);
    if Passes(e, hypotheses, watermark, lines[i]) {
      end, at := RunCovers(e, hypotheses, watermark, lines, i + 1);
      var rest := QueryPage.RunFrom(e, scope, Joined(lines), |Joined(lines[..i + 1])|, 0);
      RunGoesOn(e, hypotheses, watermark, lines, i, end, at, rest, all);
      if Wanted(e.classify, hypotheses, watermark, lines[i]) { at := [i] + at; }
    } else {
      at := RunStops(e, hypotheses, watermark, lines, i, all);
      end := i + 1;
    }
  }

  // --- slurped inputs ------------------------------------------------------------------------------------------

  /** A line that fails a slurp query: a bad one, or a wanted one that jaq cannot parse. */
  predicate Spoils(e: SlurpPage.SlurpEngine, hypotheses: seq<string>, watermark: real, line: seq<byte>)
  {
    Bad(e.classify, line) || (Wanted(e.classify, hypotheses, watermark, line) && !e.parses(line))
  }

  function LinesAt(lines: seq<seq<byte>>, at: seq<nat>): seq<seq<byte>>
    requires forall k | 0 <= k < |at| :: at[k] < |lines|
  {
    seq(|at|, k requires 0 <= k < |at| => lines[at[k]])
  }

  lemma StripsBack(line: seq<byte>)
    requires line == [] || OneLine(line)
    ensures SlurpPage.StripLine(line + [LF]) == line
  {
  }

  lemma LineOfInputs(e: SlurpPage.SlurpEngine, scope: QueryPage.Scope, lines: seq<seq<byte>>, i: nat)
    requires CleanLines(lines) && i < |lines|
    ensures var here := SlurpPage.Inputs(e, scope, Joined(lines), |Joined(lines[..i])|);
            var rest := SlurpPage.Inputs(e, scope, Joined(lines), |Joined(lines[..i + 1])|);
            here == if Spoils(e, scope.hypotheses, scope.watermark, lines[i]) then Err(SlurpPage.EvidenceMalformed)
                    else if Wanted(e.classify, scope.hypotheses, scope.watermark, lines[i])
                    then SlurpPage.Following([lines[i]], rest) else rest
  {
    JoinedLine(lines, i);
    StripsBack(lines[i]);
    hide Joined, LineEnd, TrimEnd, SlurpPage.StripLine;
  }

  /** The slurped array holds exactly the wanted lines, in order; any line that spoils it fails the query. */
  lemma {:induction false} InputsCover(
    e: SlurpPage.SlurpEngine, hypotheses: seq<string>, watermark: real, lines: seq<seq<byte>>, i: nat)
    returns (at: seq<nat>)
    requires CleanLines(lines) && i <= |lines|
    ensures Places(e.classify, hypotheses, watermark, lines, i, |lines|, at)
    ensures forall k | 0 <= k < |at| :: at[k] < |lines|
    ensures var r := SlurpPage.Inputs(
              e, QueryPage.Scope(hypotheses, watermark), Joined(lines), |Joined(lines[..i])|);
            if Unspoilt(e, hypotheses, watermark, lines, i) then r == Ok(LinesAt(lines, at))
            else r == Err(SlurpPage.EvidenceMalformed)
    decreases |lines| - i
  {
    if i == |lines| {
      assert lines[..i] == lines;
      assert LinesAt(lines, []) == [];
      return [];
    }
    UnspoiltFrom(e, hypotheses, watermark, lines, i);
    hide SlurpPage.Inputs, Joined, Wanted, Spoils, Places, Unspoilt, LinesAt;
    LineOfInputs(e, QueryPage.Scope(hypotheses, watermark), lines, i);
    at := InputsCover(e, hypotheses, watermark, lines, i + 1);
    PlacesCons(e.classify, hypotheses, watermark, lines, i, |lines|, at);
    if Wanted(e.classify, hypotheses, watermark, lines[i]) {
      LinesAtCons(lines, i, at);
      at := [i] + at;
    }
  }

  /** An evaluation fails on a program that does not compile, else on any line that spoils the array, else on a
      runtime error; otherwise it is what the program makes of the array of wanted lines. */
  lemma EvaluationCovers(
    e: SlurpPage.SlurpEngine, hypotheses: seq<string>, watermark: real, lines: seq<seq<byte>>)
    returns (at: seq<nat>)
    requires CleanLines(lines)
    ensures Places(e.classify, hypotheses, watermark, lines, 0, |lines|, at)
    ensures forall k | 0 <= k < |at| :: at[k] < |lines|
    ensures SlurpPage.Evaluate(e, QueryPage.Scope(hypotheses, watermark), Joined(lines))
         == if !e.compiles then Err(SlurpPage.QueryFailed)
            else if !Unspoilt(e, hypotheses, watermark, lines, 0) then Err(SlurpPage.EvidenceMalformed)
            else if e.run(LinesAt(lines, at)).failed then Err(SlurpPage.QueryFailed)
            else Ok(e.run(LinesAt(lines, at)).values)
  {
    at := InputsCover(e, hypotheses, watermark, lines, 0);
    NothingJoined(lines);
    hide SlurpPage.Inputs, Joined, Places, Unspoilt, LinesAt;
  }

  lemma LinesAtCons(lines: seq<seq<byte>>, i: nat, at: seq<nat>)
    requires i < |lines| && forall k | 0 <= k < |at| :: at[k] < |lines|
    ensures forall k | 0 <= k < |[i] + at| :: ([i] + at)[k] < |lines|
    ensures LinesAt(lines, [i] + at) == [lines[i]] + LinesAt(lines, at)
  {
  }

  ghost predicate Unspoilt(
    e: SlurpPage.SlurpEngine, hypotheses: seq<string>, watermark: real, lines: seq<seq<byte>>, from: nat)
  {
    forall j | from <= j < |lines| :: !Spoils(e, hypotheses, watermark, lines[j])
  }

  lemma UnspoiltFrom(
    e: SlurpPage.SlurpEngine, hypotheses: seq<string>, watermark: real, lines: seq<seq<byte>>, i: nat)
    requires i < |lines|
    ensures Unspoilt(e, hypotheses, watermark, lines, i)
       <==> !Spoils(e, hypotheses, watermark, lines[i]) && Unspoilt(e, hypotheses, watermark, lines, i + 1)
  {
    hide Spoils;
  }

  // --- a fresh query runs over everything ----------------------------------------------------------------------

  lemma LastIsLargest(at: seq<nat>, i: nat)
    requires Increasing(at) && i in at
    ensures i <= at[|at| - 1]
  {
    var k :| 0 <= k < |at| && at[k] == i;
  }

  /** Places that leave nothing out are all places. */
  lemma {:induction false} EveryPlace(at: seq<nat>, n: nat)
    requires Increasing(at) && forall i :: i in at <==> 0 <= i < n
    ensures |at| == n && forall k | 0 <= k < n :: at[k] == k
  {
    assert n > 0 ==> 0 in at;
    if at != [] {
      var last := |at| - 1;
      var front := at[..last];
      assert at[last] in at;
      LastIsLargest(at, n - 1);
      forall i | i in front ensures 0 <= i < n - 1 {
        var j :| 0 <= j < last && front[j] == i;
        assert at[j] in at && at[j] < at[last];
      }
      forall i | 0 <= i < n - 1 ensures i in front {
        assert i in at;
        var j :| 0 <= j < |at| && at[j] == i;
        assert front[j] == i;
      }
      EveryPlace(front, n - 1);
    }
  }

  lemma {:induction false} UpToHighest(log: seq<Session.Entry>, i: nat)
    requires i < |log|
    ensures log[i].sequence <= Session.Highest(log)
  {
    if i < |log| - 1 { UpToHighest(log[..|log| - 1], i); }
  }

  /** Up to the highest number every record of a log is wanted. */
  lemma {:induction false} AllWanted(classify: Classifier, log: seq<Session.Entry>)
    requires forall i | 0 <= i < |log| :: Session.Stored(classify, log[i])
    ensures CleanLines(Session.Texts(log))
    ensures forall i | 0 <= i < |log| :: Wanted(classify, [], Session.Highest(log) as real, Session.Texts(log)[i])
  {
    forall i | 0 <= i < |log| ensures Wanted(classify, [], Session.Highest(log) as real, Session.Texts(log)[i]) {
      assert Session.Stored(classify, log[i]);
      UpToHighest(log, i);
    }
  }

  /** What the program yields for all records of a log, one after the other. */
  function YieldAll(e: QueryPage.Engine, log: seq<Session.Entry>): seq<QueryPage.Value>
  {
    Concat(seq(|log|, i requires 0 <= i < |log| => Yield(e, log[i].text)))
  }

  /** A run up to the highest number that finishes has put every record through the program, in order. */
  lemma {:induction false} FreshRunCoversTheLog(e: QueryPage.Engine, log: seq<Session.Entry>)
    requires forall i | 0 <= i < |log| :: Session.Stored(e.classify, log[i])
    ensures var all := QueryPage.RunFrom(
              e, QueryPage.Scope([], Session.Highest(log) as real), Session.Bytes(log), 0, 0);
            all.stop.Finished? ==>
              && all.values == YieldAll(e, log)
              && forall i | 0 <= i < |log| :: e.run(log[i].text).Outputs? && !e.run(log[i].text).failed
  {
    var lines, watermark := Session.Texts(log), Session.Highest(log) as real;
    AllWanted(e.classify, log);
    var end, at := RunCovers(e, [], watermark, lines, 0);
    NothingJoined(lines);
    hide QueryPage.RunFrom, Joined, Wanted, Session.Stored, Session.Highest, Bad;
    var all := QueryPage.RunFrom(e, QueryPage.Scope([], watermark), Joined(lines), 0, 0);
    if all.stop.Finished? {
      EveryPlace(at, |log|);
      assert seq(|at|, k requires 0 <= k < |at| => Yield(e, lines[at[k]]))
          == seq(|log|, i requires 0 <= i < |log| => Yield(e, log[i].text));
      forall i | 0 <= i < |log| ensures e.run(log[i].text).Outputs? && !e.run(log[i].text).failed {
        assert Passes(e, [], watermark, lines[i]);
      }
    }
  }

  /** A slurp evaluation up to the highest number has given the program the array of all records, in order. */
  lemma {:induction false} FreshSlurpCoversTheLog(e: SlurpPage.SlurpEngine, log: seq<Session.Entry>)
    requires forall i | 0 <= i < |log| :: Session.Stored(e.classify, log[i])
    ensures var evaluated := SlurpPage.Evaluate(
              e, QueryPage.Scope([], Session.Highest(log) as real), Session.Bytes(log));
            evaluated.Ok? ==> !e.run(Session.Texts(log)).failed && evaluated.value == e.run(Session.Texts(log)).values
  {
    var lines, watermark := Session.Texts(log), Session.Highest(log) as real;
    AllWanted(e.classify, log);
    var at := InputsCover(e, [], watermark, lines, 0);
    NothingJoined(lines);
    hide SlurpPage.Inputs, Joined, Wanted, Session.Stored, Session.Highest, Spoils;
    EveryPlace(at, |log|);
    assert LinesAt(lines, at) == lines;
  }
}
