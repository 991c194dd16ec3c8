/** Which error a reader reports, and how its references are counted, over whole runs. */
module RecordReaderErrors {
  import opened RecordReader
  import opened Wrappers

  // ---------------------------------------------------------------------
  // The first error wins
  // ---------------------------------------------------------------------

  /** The error a goroutine tells the group in this step, if it does. */
  function Reported(s: State, step: Step): Option<Error> {
    if step.Group? && step.group.Exit? && step.group.lane < |s.lanes| && s.lanes[step.group.lane].phase.Exiting?
    then s.lanes[step.group.lane].phase.error else None
  }

  /** The first error told to the group in a run. */
  function FirstReported(c: Config, s: State, steps: seq<Step>): Option<Error>
    requires |s.lanes| == |c.endpoints| && ValidRun(c, s, steps)
    decreases |steps|
  {
    if steps == [] then None
    else if Reported(s, steps[0]).Some? then Reported(s, steps[0])
    else FirstReported(c, Apply(c, s, steps[0]), steps[1..])
  }

  lemma {:induction false} FirstErrorKept(c: Config, s: State, steps: seq<Step>)
    requires |s.lanes| == |c.endpoints| && ValidRun(c, s, steps)
    ensures RunFrom(c, s, steps).groupError
            == if s.groupError.Some? then s.groupError else FirstReported(c, s, steps)
    decreases |steps|
  {
    if steps != [] { FirstErrorKept(c, Apply(c, s, steps[0]), steps[1..]); }
  }

  // ---------------------------------------------------------------------
  // The error is an endpoint's own
  // ---------------------------------------------------------------------

  /** What goes wrong at an endpoint by itself: it does not open, it has another schema than
      the one given, or its stream ends in an error. */
  function OwnError(c: Config, i: nat): Option<Error>
    requires i < |c.endpoints|
  {
    var e := c.endpoints[i];
    if e.openError.Some? then e.openError
    else if c.schemaGiven && !e.schemaMatches then Some(INCONSISTENT_SCHEMA)
    else e.streamError
  }

  /** The goroutine carries an error of its own, if any; a running one has passed the checks. */
  predicate Honest(c: Config, l: Lane, i: nat)
    requires i < |c.endpoints|
  {
    match l.phase
    case Starting => c.schemaGiven
    case Running => OwnError(c, i) == c.endpoints[i].streamError
    case Sending(_) => OwnError(c, i) == c.endpoints[i].streamError
    case Returning(error) => error == OwnError(c, i)
    case Exiting(error) => error == OwnError(c, i)
    case Ended(error) => error == OwnError(c, i)
  }

  ghost predicate AllHonest(c: Config, s: State) {
    |s.lanes| == |c.endpoints| && forall i | 0 <= i < |s.lanes| :: Honest(c, s.lanes[i], i)
  }

  /** Until the group has an error, and unless the parent or the last Release cancels, all
      errors are the endpoints' own; so is the group's. */
  ghost predicate HonestUnlessStopped(c: Config, s: State) {
    && (Undisturbed(s) ==> AllHonest(c, s))
    && (!s.parentCancelled && !LastReferenceGone(s) && s.groupError.Some? ==>
          exists i | 0 <= i < |c.endpoints| :: s.groupError == OwnError(c, i))
  }

  lemma {:induction false} InitHonest(c: Config)
    requires ValidConfig(c)
    ensures HonestUnlessStopped(c, Init(c))
  {
  }

  lemma {:induction false} GoroutineStaysHonest(c: Config, s: State, i: nat, m: Move)
    requires Inv(c, s) && AllHonest(c, s) && Undisturbed(s) && Enabled(c, s, Goroutine(i, m))
    ensures AllHonest(c, Apply(c, s, Goroutine(i, m)))
  {
    var t := Apply(c, s, Goroutine(i, m));
    assert Honest(c, s.lanes[i], i) && !HasEnded(s.lanes[i]);
    assert s.closer.Waiting? && !s.cancelled;
    forall k | 0 <= k < |t.lanes| ensures Honest(c, t.lanes[k], k) {
      if k != i { assert Honest(c, s.lanes[k], k); }
    }
  }

  lemma {:induction false} GroupStaysHonest(c: Config, s: State, g: GroupAction)
    requires |s.lanes| == |c.endpoints| && HonestUnlessStopped(c, s) && GroupEnabled(s, g)
    ensures HonestUnlessStopped(c, GroupApply(s, g))
  {
    var t := GroupApply(s, g);
    if Undisturbed(s) {
      if g.Exit? { assert Honest(c, s.lanes[g.lane], g.lane); }
      forall k | 0 <= k < |t.lanes| ensures Honest(c, t.lanes[k], k) { assert Honest(c, s.lanes[k], k); }
    }
  }

  lemma {:induction false} ReaderStaysHonest(c: Config, s: State, a: ReaderAction)
    requires |s.lanes| == |c.endpoints| && HonestUnlessStopped(c, s) && ReaderEnabled(s, a)
    ensures HonestUnlessStopped(c, ReaderApply(s, a))
  {
    ReaderLanes(s, a);
    var t := ReaderApply(s, a);
    if Undisturbed(t) {
      forall k | 0 <= k < |t.lanes| ensures Honest(c, t.lanes[k], k) { assert Honest(c, s.lanes[k], k); }
    }
  }

  lemma {:induction false} RunStaysHonest(c: Config, s: State, steps: seq<Step>)
    requires Inv(c, s) && HonestUnlessStopped(c, s) && ValidRun(c, s, steps)
    ensures HonestUnlessStopped(c, RunFrom(c, s, steps))
    decreases |steps|
  {
    hide AllHonest;
    if steps != [] {
      var t := Apply(c, s, steps[0]);
      match steps[0] {
        case Goroutine(i, m) => if Undisturbed(s) { GoroutineStaysHonest(c, s, i, m); }
        case Group(g) => GroupStaysHonest(c, s, g);
        case Reader(a) => ReaderStaysHonest(c, s, a);
      }
      StepKeepsInv(c, s, steps[0]);
      RunStaysHonest(c, t, steps[1..]);
    }
  }

  /** Once Next has returned false, Err is the first error a goroutine reported.  With an
      uncancelled parent that is what went wrong at some endpoint by itself, never what the
      cancellation did to the others. */
  lemma {:induction false} ErrIsTheFirst(c: Config, steps: seq<Step>)
    requires ValidConfig(c) && ValidRun(c, Init(c), steps)
    requires RunFrom(c, Init(c), steps).nextResult == Some(false) && RunFrom(c, Init(c), steps).refCount > 0
    ensures var s := RunFrom(c, Init(c), steps);
            && s.readerError == FirstReported(c, Init(c), steps)
            && (!s.parentCancelled && s.readerError.Some? ==>
                  exists i | 0 <= i < |c.endpoints| :: s.readerError == OwnError(c, i))
  {
    NextFalseMeansDone(c, steps);
    FirstErrorKept(c, Init(c), steps);
    InitInv(c);
    InitHonest(c);
    RunKeepsInv(c, Init(c), steps);
    RunStaysHonest(c, Init(c), steps);
  }

  // ---------------------------------------------------------------------
  // What Next answers, and when it stops producing
  // ---------------------------------------------------------------------

  /** True comes with a current record, the last one delivered; false comes, and keeps coming,
      exactly when all channels have been passed. */
  predicate Answers(s: State) {
    s.refCount > 0 ==>
      && (s.nextResult == Some(true) <==> s.rec.Some?)
      && (s.rec.Some? ==> |s.delivered| > 0 && s.rec.value == s.delivered[|s.delivered| - 1])
      && (s.nextResult == Some(false) <==> s.cur == |s.lanes|)
  }

  lemma {:induction false} ReaderKeepsAnswers(s: State, a: ReaderAction)
    requires |s.lanes| > 0 && CursorInv(s) && (LastReferenceGone(s) <==> s.refCount == 0)
    requires Answers(s) && ReaderEnabled(s, a)
    ensures Answers(ReaderApply(s, a))
  {
    ReaderLanes(s, a);
  }

  lemma {:induction false} StepKeepsAnswers(c: Config, s: State, step: Step)
    requires Inv(c, s) && Answers(s) && Enabled(c, s, step)
    ensures Answers(Apply(c, s, step))
  {
    hide LanesInv, ClosesInv, GroupInv, HistoryInv, CursorInv;
    match step {
      case Goroutine(i, m) =>
      case Group(g) =>
      case Reader(a) => ReaderKeepsAnswers(s, a);
    }
  }

  lemma {:induction false} RunKeepsAnswers(c: Config, s: State, steps: seq<Step>)
    requires Inv(c, s) && Answers(s) && ValidRun(c, s, steps)
    ensures Answers(RunFrom(c, s, steps))
    decreases |steps|
  {
    hide Inv, Answers;
    if steps != [] {
      StepKeepsAnswers(c, s, steps[0]);
      StepKeepsInv(c, s, steps[0]);
      RunKeepsAnswers(c, Apply(c, s, steps[0]), steps[1..]);
    }
  }

  lemma {:induction false} NextAnswers(c: Config, steps: seq<Step>)
    requires ValidConfig(c) && ValidRun(c, Init(c), steps)
    ensures Answers(RunFrom(c, Init(c), steps))
  {
    InitInv(c);
    RunKeepsAnswers(c, Init(c), steps);
  }

  /** Once the context is cancelled it stays so, and no goroutine takes another record. */
  lemma {:induction false} CancelledTakesNothing(c: Config, s: State, steps: seq<Step>)
    requires |s.lanes| == |c.endpoints| && s.cancelled && ValidRun(c, s, steps)
    ensures var t := RunFrom(c, s, steps);
            t.cancelled && forall i | 0 <= i < |s.lanes| :: t.lanes[i].taken == s.lanes[i].taken
    decreases |steps|
  {
    if steps != [] {
      var t := Apply(c, s, steps[0]);
      if steps[0].Reader? { ReaderLanes(s, steps[0].action); }
      assert t.cancelled && forall i | 0 <= i < |s.lanes| :: t.lanes[i].taken == s.lanes[i].taken;
      CancelledTakesNothing(c, t, steps[1..]);
    }
  }

  // ---------------------------------------------------------------------
  // References to the reader
  // ---------------------------------------------------------------------

  function Retains(steps: seq<Step>): nat {
    if steps == [] then 0 else (if steps[0] == Reader(Retain) then 1 else 0) + Retains(steps[1..])
  }

  function Releases(steps: seq<Step>): nat {
    if steps == [] then 0
    else (if steps[0] == Reader(ReleaseShared) || steps[0] == Reader(ReleaseLast) then 1 else 0) + Releases(steps[1..])
  }

  lemma {:induction false} RefCountFrom(c: Config, s: State, steps: seq<Step>)
    requires |s.lanes| == |c.endpoints| && ValidRun(c, s, steps)
    ensures RunFrom(c, s, steps).refCount == s.refCount + Retains(steps) - Releases(steps)
    decreases |steps|
  {
    if steps != [] { RefCountFrom(c, Apply(c, s, steps[0]), steps[1..]); }
  }

  /** The count is one more than the Retains less the Releases, and the channels are drained
      exactly when it has come to zero. */
  lemma {:induction false} RefCountExact(c: Config, steps: seq<Step>)
    requires ValidConfig(c) && ValidRun(c, Init(c), steps)
    ensures var s := RunFrom(c, Init(c), steps);
            && s.refCount == 1 + Retains(steps) - Releases(steps)
            && (LastReferenceGone(s) <==> Releases(steps) == 1 + Retains(steps))
  {
    RefCountFrom(c, Init(c), steps);
    InitInv(c);
    RunKeepsInv(c, Init(c), steps);
  }
}
