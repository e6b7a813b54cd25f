/** One session's log, epoch and sequence counter, changed by ingestion, restarts and multi-step resets,
    all under the session lock; query pages read the file outside the lock. */
module SessionSystem {
  import opened Common
  import opened Lines
  import opened QueryPage
  import opened QueryChains

  /** A stored record: its serialised text and its sequence. */
  datatype Entry = Entry(text: seq<byte>, sequence: nat)

  type Classifier = seq<byte> -> Reading

  /** The text is one line, and serde_json finds the sequence in it. */
  predicate Stored(classify: Classifier, x: Entry)
  {
    && OneLine(x.text)
    && classify(x.text).Record? && classify(x.text).sequence == Some(x.sequence as real)
  }

  function Texts(log: seq<Entry>): seq<seq<byte>>
  {
    seq(|log|, i requires 0 <= i < |log| => log[i].text)
  }

  /** The file that holds the log. */
  function Bytes(log: seq<Entry>): seq<byte> { Joined(Texts(log)) }

  function Highest(log: seq<Entry>): nat
  {
    if log == [] then 0 else Max(Highest(log[..|log| - 1]), log[|log| - 1].sequence)
  }

  datatype Phase = Unlocked | Resetting(newEpoch: string, cleared: bool, counterDropped: bool)

  /** `files` are the inodes events.ndjson ever was: clearing it replaces the file, and a reader that
      opened the old one keeps it. `used` are the epochs handed out so far. `drawn` is the number of the record
      that the holder of the lock is about to append. `detached` counts clearings that run on after the reset
      that started them has thrown and released the lock. */
  datatype State = State(
    files: map<nat, seq<Entry>>, current: nat, epoch: string, used: set<string>, counter: Option<nat>,
    drawn: Option<nat>, phase: Phase, detached: nat)
  {
    function Log(): seq<Entry> { if current in files then files[current] else [] }

    /** Nobody holds the session lock, so a status request can be answered. */
    predicate Free() { phase.Unlocked? && drawn.None? }
  }

  datatype Step =
    | TakeNumber
    | AppendEntry(entry: Entry)
    | AppendFails
    | Restart
    | BeginReset(newEpoch: string)
    | ClearEvents(inode: nat)
    | DropCounter
    | FinishReset
    | AbortReset(running: bool)
    | LateClear(inode: nat)
    | LateClearFails
    | Other

  /** `EventSequence.next`: the cached counter, or else the maximum of the file, plus one. */
  function NextSequence(s: State): nat
  {
    (if s.counter.Some? then s.counter.value else Highest(s.Log())) + 1
  }

  ghost predicate Next(classify: Classifier, s: State, step: Step, s': State)
  {
    match step
    case TakeNumber =>
      s.Free() && s' == s.(counter := Some(NextSequence(s)), drawn := Some(NextSequence(s)))
    case AppendEntry(entry) =>
      && s.drawn == Some(entry.sequence) && Stored(classify, entry)
      && s' == s.(files := s.files[s.current := s.Log() + [entry]], drawn := None)
    case AppendFails =>
      s.drawn.Some? && s' == s.(drawn := None)
    case Restart =>  // what was running is gone
      s.phase.Unlocked? && s' == s.(counter := None, drawn := None, detached := 0)
    case BeginReset(newEpoch) =>
      && s.Free() && newEpoch !in s.used
      && s' == s.(phase := Resetting(newEpoch, false, false), used := s.used + {newEpoch})
    case ClearEvents(inode) =>
      && s.phase.Resetting? && !s.phase.cleared && inode !in s.files
      && s' == s.(files := s.files[inode := []], current := inode, phase := s.phase.(cleared := true))
    case DropCounter =>
      && s.phase.Resetting? && s.phase.cleared
      && s' == s.(counter := None, phase := s.phase.(counterDropped := true))
    case FinishReset =>
      && s.phase.Resetting? && s.phase.counterDropped
      && s' == s.(epoch := s.phase.newEpoch, phase := Unlocked)
    case AbortReset(running) =>  // something threw; the clearing of the log may still be running
      && s.phase.Resetting? && (running ==> !s.phase.cleared)
      && s' == s.(phase := Unlocked, detached := s.detached + if running then 1 else 0)
    case LateClear(inode) =>  // it lands, whoever holds the lock by now
      && s.detached > 0 && inode !in s.files
      && s' == s.(files := s.files[inode := []], current := inode, detached := s.detached - 1)
    case LateClearFails =>
      s.detached > 0 && s' == s.(detached := s.detached - 1)
    case Other => s' == s
  }

  /** The two ways to lose the log without a trace: a reset that clears it and then fails, and a clearing that
      lands after its reset has failed. */
  predicate LosesLog(s: State, step: Step)
  {
    step.LateClear? || (step.AbortReset? && s.phase.Resetting? && s.phase.cleared)
  }

  /** Whole records, numbered from one up. */
  ghost predicate Whole(classify: Classifier, log: seq<Entry>)
  {
    forall i | 0 <= i < |log| :: Stored(classify, log[i]) && log[i].sequence >= 1
  }

  ghost predicate Inv(classify: Classifier, s: State)
  {
    && s.current in s.files
    && Whole(classify, s.Log())
    && (s.counter.Some? ==> s.counter.value >= Highest(s.Log()))
    && (s.drawn.Some? ==> s.phase.Unlocked? && s.counter == s.drawn && s.drawn.value > Highest(s.Log()))
    && s.epoch in s.used
    && (s.phase.Resetting? ==> s.phase.newEpoch in s.used && s.phase.newEpoch != s.epoch)
    && (s.phase.Resetting? && s.phase.counterDropped ==> s.phase.cleared)
    && (s.phase.Resetting? && s.phase.cleared ==> s.Log() == [])
  }

  /** A behaviour: any interleaving of steps from a state that satisfies the invariant. */
  datatype Behaviour = Behaviour(states: seq<State>, steps: seq<Step>)

  ghost predicate Valid(classify: Classifier, b: Behaviour)
  {
    && |b.states| == |b.steps| + 1
    && Inv(classify, b.states[0])
    && forall i | 0 <= i < |b.steps| :: Next(classify, b.states[i], b.steps[i], b.states[i + 1])
  }

  lemma {:induction false} HighestSnoc(log: seq<Entry>, x: Entry)
    ensures Highest(log + [x]) == Max(Highest(log), x.sequence)
  {
  }

  lemma NoEntries(classify: Classifier)
    ensures Whole(classify, []) && Highest([]) == 0
  {
  }

  lemma WholeSnoc(classify: Classifier, log: seq<Entry>, x: Entry)
    requires Whole(classify, log) && Stored(classify, x) && x.sequence >= 1
    ensures Whole(classify, log + [x])
  {
  }

  lemma InvStep(classify: Classifier, s: State, step: Step, s': State)
    requires Inv(classify, s) && Next(classify, s, step, s')
    ensures Inv(classify, s')
  {
    hide Whole, Highest, Stored;
    NoEntries(classify);
    match step
    case AppendEntry(entry) =>
      HighestSnoc(s.Log(), entry);
      WholeSnoc(classify, s.Log(), entry);
      assert s'.Log() == s.Log() + [entry];
    case ClearEvents(_) =>
      assert s'.Log() == [];
    case LateClear(_) =>
      assert s'.Log() == [];
    case _ =>
      assert s'.Log() == s.Log();
  }

  /** Every reachable state satisfies the invariant. */
  lemma {:induction false} InvAlways(classify: Classifier, b: Behaviour, i: nat)
    requires Valid(classify, b) && i < |b.states|
    ensures Inv(classify, b.states[i])
  {
    if i > 0 {
      InvAlways(classify, b, i - 1);
      InvStep(classify, b.states[i - 1], b.steps[i - 1], b.states[i]);
    }
  }

  lemma StepAt(classify: Classifier, b: Behaviour, k: nat)
    requires Valid(classify, b) && k + 1 < |b.states|
    ensures |b.states| == |b.steps| + 1 && Next(classify, b.states[k], b.steps[k], b.states[k + 1])
    ensures Inv(classify, b.states[k])
  {
    InvAlways(classify, b, k);
  }

  // --- what a reset does to earlier observations -------------------------------------------------

  /** Still the file of `s0`, grown by entries above every sequence up to `w`; the epoch is the same. */
  ghost predicate Kept(w: nat, s0: State, s: State)
  {
    && s.epoch == s0.epoch && s.current == s0.current && (s.phase.Resetting? ==> !s.phase.cleared)
    && s0.current in s.files
    && s0.Log() <= s.Log()
    && Highest(s.Log()) >= w
    && forall i | |s0.Log()| <= i < |s.Log()| :: s.Log()[i].sequence > w
  }

  /** The file of `s0` has been replaced; readers that hold it open see it as it was. */
  ghost predicate Replaced(s0: State, s: State)
  {
    s0.current in s.files && s.current != s0.current
  }

  /** The epoch of `s0` is gone, or goes when the reset under way finishes. */
  ghost predicate Outdated(s0: State, s: State)
  {
    && s0.epoch in s.used
    && (s.phase.Resetting? ==> s.phase.newEpoch != s0.epoch)
    && (s.epoch == s0.epoch ==> s.phase.Resetting? && s.phase.cleared)
  }

  lemma KeptAtOnce(classify: Classifier, w: nat, s: State)
    requires Inv(classify, s) && s.Free() && w <= Highest(s.Log())
    ensures Kept(w, s, s)
  {
  }

  lemma KeptStep(classify: Classifier, w: nat, s0: State, s: State, step: Step, s': State)
    requires Inv(classify, s) && Next(classify, s, step, s') && s0.epoch in s.used
    requires Kept(w, s0, s)
    ensures match step
            case ClearEvents(_) => Replaced(s0, s') && Outdated(s0, s')
            case LateClear(_) => Replaced(s0, s')
            case _ => Kept(w, s0, s')
  {
    if step.AppendEntry? { HighestSnoc(s.Log(), step.entry); }
  }

  lemma UsedGrows(classify: Classifier, s: State, step: Step, s': State)
    requires Next(classify, s, step, s')
    ensures s.used <= s'.used
  {
  }

  lemma ReplacedStep(classify: Classifier, s0: State, s: State, step: Step, s': State)
    requires Next(classify, s, step, s')
    requires Replaced(s0, s)
    ensures Replaced(s0, s')
  {
  }

  lemma {:induction false} KeptOrReplaced(classify: Classifier, b: Behaviour, w: nat, i: nat, j: nat)
    requires Valid(classify, b) && i <= j < |b.states|
    requires b.states[i].Free() && w <= Highest(b.states[i].Log())
    ensures Kept(w, b.states[i], b.states[j]) || Replaced(b.states[i], b.states[j])
    ensures b.states[i].epoch in b.states[j].used
    decreases j - i
  {
    hide Kept, Replaced, Next, Valid, Highest;
    InvAlways(classify, b, i);
    if i == j {
      KeptAtOnce(classify, w, b.states[i]);
    } else {
      hide Inv;
      KeptOrReplaced(classify, b, w, i, j - 1);
      StepAt(classify, b, j - 1);
      var s0, s, s' := b.states[i], b.states[j - 1], b.states[j];
      UsedGrows(classify, s, b.steps[j - 1], s');
      if Kept(w, s0, s) {
        KeptStep(classify, w, s0, s, b.steps[j - 1], s');
      } else {
        ReplacedStep(classify, s0, s, b.steps[j - 1], s');
      }
    }
  }

  lemma {:induction false} ReplacedStays(classify: Classifier, b: Behaviour, s0: State, i: nat, j: nat)
    requires Valid(classify, b) && i <= j < |b.states|
    requires Replaced(s0, b.states[i])
    ensures Replaced(s0, b.states[j])
    decreases j - i
  {
    hide Inv, Next, Replaced, Valid;
    if i < j {
      ReplacedStays(classify, b, s0, i, j - 1);
      StepAt(classify, b, j - 1);
      ReplacedStep(classify, s0, b.states[j - 1], b.steps[j - 1], b.states[j]);
    }
  }

  ghost predicate NoLoss(b: Behaviour, from: nat, to: nat)
  {
    forall k | from <= k < to && k < |b.states| && k < |b.steps| :: !LosesLog(b.states[k], b.steps[k])
  }

  lemma OutdatedStep(classify: Classifier, s0: State, s: State, step: Step, s': State)
    requires Inv(classify, s) && Next(classify, s, step, s') && !LosesLog(s, step)
    requires Outdated(s0, s)
    ensures Outdated(s0, s')
  {
  }

  lemma {:induction false} KeptOrOutdated(classify: Classifier, b: Behaviour, w: nat, i: nat, j: nat)
    requires Valid(classify, b) && i <= j < |b.states| && NoLoss(b, i, j)
    requires b.states[i].Free() && w <= Highest(b.states[i].Log())
    ensures Kept(w, b.states[i], b.states[j]) || Outdated(b.states[i], b.states[j])
    decreases j - i
  {
    hide Inv, Kept, Outdated, Replaced, Next, Valid, Highest;
    if i == j {
      InvAlways(classify, b, i);
      KeptAtOnce(classify, w, b.states[i]);
    } else {
      KeptOrOutdated(classify, b, w, i, j - 1);
      StepAt(classify, b, j - 1);
      KeptOrReplaced(classify, b, w, i, j - 1);
      var s0, s, s' := b.states[i], b.states[j - 1], b.states[j];
      if Kept(w, s0, s) {
        KeptStep(classify, w, s0, s, b.steps[j - 1], s');
      } else {
        OutdatedStep(classify, s0, s, b.steps[j - 1], s');
      }
    }
  }

  /** The seqlock, for the file: two status reads under the lock that report one epoch enclose one and the same
      file, grown, if and only if no reset in between failed after clearing the log, and no clearing of a failed
      reset landed in between. */
  lemma EqualEpochsMeanOnlyGrowth(classify: Classifier, b: Behaviour, pre: nat, post: nat)
    requires Valid(classify, b) && pre <= post < |b.states|
    requires b.states[pre].Free() && b.states[post].Free()
    requires b.states[pre].epoch == b.states[post].epoch
    ensures Kept(Highest(b.states[pre].Log()), b.states[pre], b.states[post]) <==> NoLoss(b, pre, post)
  {
    var w := Highest(b.states[pre].Log());
    if NoLoss(b, pre, post) {
      KeptOrOutdated(classify, b, w, pre, post);
    } else {
      var k :| pre <= k < post && LosesLog(b.states[k], b.steps[k]);
      LossReplaces(classify, b, w, pre, k);
      ReplacedStays(classify, b, b.states[pre], k + 1, post);
    }
  }

  /** The log of `s0` is still there, and what follows it is newer. */
  ghost predicate Grew(s0: State, s: State)
  {
    s0.Log() <= s.Log() && forall i | |s0.Log()| <= i < |s.Log()| :: s.Log()[i].sequence > Highest(s0.Log())
  }

  lemma KeptGrew(s0: State, s: State)
    requires Kept(Highest(s0.Log()), s0, s)
    ensures Grew(s0, s)
  {
  }

  /** Every log has grown from an empty one. */
  lemma GrewFromNothing(classify: Classifier, s0: State, s: State)
    requires Inv(classify, s) && s0.Log() == []
    ensures Grew(s0, s)
  {
  }

  /** A step that loses the log meets an empty log or leaves one. */
  lemma LossEmpties(classify: Classifier, s: State, step: Step, s': State)
    requires Inv(classify, s) && Next(classify, s, step, s') && LosesLog(s, step)
    ensures s.Log() == [] || s'.Log() == []
  {
  }

  /** The seqlock, for the evidence: between two status reads under the lock that report one epoch the log only
      grew, by newer sequences, if and only if no reset in between failed after clearing the log and no clearing of
      a failed reset landed in between, or there was nothing to lose. */
  lemma EvidenceIsKeptIff(classify: Classifier, b: Behaviour, pre: nat, post: nat)
    requires Valid(classify, b) && pre <= post < |b.states|
    requires b.states[pre].Free() && b.states[post].Free()
    requires b.states[pre].epoch == b.states[post].epoch
    ensures (forall k | pre <= k <= post :: Grew(b.states[pre], b.states[k]))
       <==> NoLoss(b, pre, post) || b.states[pre].Log() == []
  {
    hide Inv, Next, Kept, Highest, LosesLog;
    var s0 := b.states[pre];
    if NoLoss(b, pre, post) || s0.Log() == [] {
      forall k | pre <= k <= post ensures Grew(s0, b.states[k]) {
        InvAlways(classify, b, k);
        if s0.Log() == [] {
          GrewFromNothing(classify, s0, b.states[k]);
        } else {
          GrowthThroughout(classify, b, pre, k, post);
          KeptGrew(s0, b.states[k]);
        }
      }
    } else {
      var k :| pre <= k < post && LosesLog(b.states[k], b.steps[k]);
      StepAt(classify, b, k);
      LossEmpties(classify, b.states[k], b.steps[k], b.states[k + 1]);
      assert !Grew(s0, b.states[k]) || !Grew(s0, b.states[k + 1]);
    }
  }

  lemma LossReplaces(classify: Classifier, b: Behaviour, w: nat, pre: nat, k: nat)
    requires Valid(classify, b) && pre <= k && k + 1 < |b.states| && LosesLog(b.states[k], b.steps[k])
    requires b.states[pre].Free() && w <= Highest(b.states[pre].Log())
    ensures Replaced(b.states[pre], b.states[k + 1])
  {
    hide Valid, Highest;
    KeptOrReplaced(classify, b, w, pre, k);
    StepAt(classify, b, k);
  }

  /** At every moment between two such reads the file was the one of the first, grown by newer sequences;
      a reader without the lock saw nothing else. */
  lemma GrowthThroughout(classify: Classifier, b: Behaviour, pre: nat, k: nat, post: nat)
    requires Valid(classify, b) && pre <= k <= post < |b.states| && NoLoss(b, pre, post)
    requires b.states[pre].Free() && b.states[post].Free()
    requires b.states[pre].epoch == b.states[post].epoch
    ensures Kept(Highest(b.states[pre].Log()), b.states[pre], b.states[k])
  {
    var w := Highest(b.states[pre].Log());
    EqualEpochsMeanOnlyGrowth(classify, b, pre, post);
    KeptOrReplaced(classify, b, w, pre, k);
    if Replaced(b.states[pre], b.states[k]) { ReplacedStays(classify, b, b.states[pre], k, post); }
  }

  /** What a reader without the lock gets to see: the inode it opened, as it was when the last byte was read. */
  function SeenThrough(b: Behaviour, openedAt: nat, read: nat): seq<Entry>
    requires openedAt < |b.states| && read < |b.states|
  {
    var inode := b.states[openedAt].current;
    if inode in b.states[read].files then b.states[read].files[inode] else []
  }

  /** Between two status reads of one epoch a reader sees the log of the first, grown by newer sequences. */
  lemma SeenIsGrown(classify: Classifier, b: Behaviour, pre: nat, openedAt: nat, read: nat, post: nat)
    requires Valid(classify, b) && pre <= openedAt <= read <= post < |b.states| && NoLoss(b, pre, post)
    requires b.states[pre].Free() && b.states[post].Free()
    requires b.states[pre].epoch == b.states[post].epoch
    ensures var log0, seen := b.states[pre].Log(), SeenThrough(b, openedAt, read);
            && log0 <= seen && (forall i | 0 <= i < |seen| :: Stored(classify, seen[i]))
            && (forall i | |log0| <= i < |seen| :: seen[i].sequence > Highest(log0))
    ensures b.states[read].current == b.states[openedAt].current == b.states[pre].current
    ensures SeenThrough(b, openedAt, read) == b.states[read].Log()
  {
    hide Next, Highest, Valid, NoLoss;
    GrowthThroughout(classify, b, pre, openedAt, post);
    GrowthThroughout(classify, b, pre, read, post);
    InvAlways(classify, b, read);
  }

  lemma KeptIsNotCleared(s0: State, s: State, s': State)
    requires Kept(Highest(s0.Log()), s0, s) && Kept(Highest(s0.Log()), s0, s')
    ensures s'.current in s.files
  {
  }

  /** Once a reset has cleared the log, every later status read reports another epoch. */
  lemma ResetChangesTheEpoch(classify: Classifier, b: Behaviour, pre: nat, k: nat, post: nat)
    requires Valid(classify, b) && pre <= k < post < |b.states| && NoLoss(b, pre, post)
    requires b.states[pre].Free() && b.states[post].Free()
    requires b.steps[k].ClearEvents?
    ensures b.states[pre].epoch != b.states[post].epoch
  {
    hide Kept;
    StepAt(classify, b, k);
    var s0, s, s' := b.states[pre], b.states[k], b.states[k + 1];
    if s0.epoch == b.states[post].epoch {
      GrowthThroughout(classify, b, pre, k, post);
      GrowthThroughout(classify, b, pre, k + 1, post);
      KeptIsNotCleared(s0, s, s');
    }
  }

  /** Both exceptions happen. Two status reads report one epoch, the first sees the record `x` and the second an
      empty log, when a reset clears the log and then fails, or (`late`) when it fails first and its clearing
      lands after the first read. */
  lemma FailedResetLosesTheLog(classify: Classifier, x: Entry, epoch: string, other: string, late: bool)
    returns (b: Behaviour, pre: nat, post: nat)
    requires Stored(classify, x) && x.sequence >= 1 && epoch != other
    ensures Valid(classify, b) && pre <= post < |b.states|
    ensures b.states[pre].Free() && b.states[post].Free() && b.states[pre].epoch == b.states[post].epoch
    ensures b.states[pre].Log() == [x] && b.states[post].Log() == []
    ensures !NoLoss(b, pre, post)
  {
    var s0 := State(map[0 := [x]], 0, epoch, {epoch}, None, None, Unlocked, 0);
    var s1 := s0.(phase := Resetting(other, false, false), used := {epoch, other});
    var s2 := if late then s1.(phase := Unlocked, detached := 1)
              else s1.(files := s1.files[1 := []], current := 1, phase := Resetting(other, true, false));
    var s3 := if late then s2.(files := s2.files[1 := []], current := 1, detached := 0) else s2.(phase := Unlocked);
    b := Behaviour([s0, s1, s2, s3],
                   [BeginReset(other), if late then AbortReset(true) else ClearEvents(1),
                    if late then LateClear(1) else AbortReset(false)]);
    pre, post := if late then 2 else 0, 3;
    assert {epoch} + {other} == {epoch, other};
    assert LosesLog(b.states[2], b.steps[2]);
  }

  // --- growth in terms of bytes ------------------------------------------------------------------

  lemma TextsPrefix(log: seq<Entry>, i: nat)
    requires i <= |log|
    ensures Texts(log)[..i] == Texts(log[..i])
  {
  }

  lemma {:induction false} NewerEntriesAreInvisible(e: Engine, scope: Scope, log: seq<Entry>, i: nat)
    requires i <= |log|
    requires forall k | i <= k < |log| :: Stored(e.classify, log[k]) && log[k].sequence as real > scope.watermark
    ensures Invisible(e, scope, Bytes(log), |Bytes(log[..i])|)
    decreases |log| - i
  {
    hide Joined;
    TextsPrefix(log, i);
    if i == |log| {
      assert log[..i] == log;
    } else {
      TextsPrefix(log, i + 1);
      JoinedLine(Texts(log), i);
      NewerEntriesAreInvisible(e, scope, log, i + 1);
    }
  }

  lemma NewerEntriesGrowUnseen(e: Engine, scope: Scope, earlier: seq<Entry>, later: seq<Entry>)
    requires earlier <= later
    requires forall k | |earlier| <= k < |later| ::
      Stored(e.classify, later[k]) && later[k].sequence as real > scope.watermark
    ensures GrowsUnseen(e, scope, Bytes(earlier), Bytes(later))
  {
    hide Joined;
    assert later[..|earlier|] == earlier;
    TextsPrefix(later, |earlier|);
    JoinedPrefix(Texts(later), |earlier|);
    NewerEntriesAreInvisible(e, scope, later, |earlier|);
    JoinedComplete(Texts(earlier));
  }
}
