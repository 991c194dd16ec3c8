/** The record reader never gets stuck: whenever the consumer is waiting in Next
    or draining in the last Release, a goroutine can move, and a measure shows
    that under every schedule the wait is over after finitely many steps. */
module RecordReaderProgress {
  import opened RecordReader
  import opened Wrappers

  /** Steps taken by goroutines, by a consumer already inside Next or Release, or
      by the parent context; the others are fresh calls by the application. */
  predicate Internal(step: Step) {
    step.Reader? ==> step.action.Receive? || step.action.Skip? || step.action.DrainReceive? || step.action.DrainSkip?
  }

  /** An internal step that the program takes by itself. */
  predicate Scheduled(step: Step) { Internal(step) && step != Group(CancelParent) }

  predicate Waits(s: State) { s.consumer.Receiving? || s.consumer.Draining? }

  ghost predicate Quiescent(c: Config, s: State)
    requires |s.lanes| == |c.endpoints|
  {
    forall step: Step | Scheduled(step) :: !Enabled(c, s, step)
  }

  // ---------------------------------------------------------------------
  // Some step is always enabled
  // ---------------------------------------------------------------------

  /** A goroutine that has not returned can move, unless its channel is full. */
  function LaneMove(c: Config, s: State, i: nat): (step: Step)
    requires |s.lanes| == |c.endpoints| && i < |s.lanes| && !HasReturned(s.lanes[i])
    requires s.lanes[i].phase.Running? ==> s.lanes[i].taken <= |c.endpoints[i].records|
    requires s.lanes[i].phase.Sending? ==> |s.lanes[i].buf| < c.bufferSize
    ensures Scheduled(step) && Enabled(c, s, step)
  {
    Goroutine(i, match s.lanes[i].phase
                 case Starting => Open
                 case Running =>
                   if s.lanes[i].taken == |c.endpoints[i].records| then EndOfStream
                   else if s.cancelled then Abort(None)
                   else Fetch
                 case Sending(_) => Send
                 case Returning(_) => Return)
  }

  /** With the consumer waiting on the last channel, every earlier goroutine has
      left its function, so the group can always finish. */
  lemma {:induction false} LastChannelProgress(c: Config, s: State)
    requires Inv(c, s) && Waits(s) && Position(s) == |s.lanes| - 1
    requires s.lanes[|s.lanes| - 1].buf == [] && s.lanes[|s.lanes| - 1].closes == 0
    ensures exists step: Step :: Scheduled(step) && Enabled(c, s, step)
  {
    var last := |s.lanes| - 1;
    if i: nat :| i < |s.lanes| && !HasEnded(s.lanes[i]) {
      assert LaneInv(c.endpoints[i], s.lanes[i], c.bufferSize);
      ClosedLanesAreDone(s, i);
      var step := if s.lanes[i].phase.Exiting? then Group(Exit(i)) else LaneMove(c, s, i);
      assert Scheduled(step) && Enabled(c, s, step);
    } else {
      assert forall i | 0 <= i < |s.lanes| :: HasEnded(s.lanes[i]);
      var step := Group(if s.closer.Waiting? then Publish else CloseLast);
      assert Scheduled(step) && Enabled(c, s, step);
    }
  }

  /** In every reachable state in which the consumer waits, some step of the
      program is enabled. */
  lemma {:induction false} WaitingMeansProgress(c: Config, s: State)
    requires Inv(c, s) && Waits(s)
    ensures exists step: Step :: Scheduled(step) && Enabled(c, s, step)
  {
    var k, draining := Source(s), s.consumer.Draining?;
    if s.lanes[k].buf != [] {
      var step := Reader(if draining then DrainReceive else Receive);
      assert Scheduled(step) && Enabled(c, s, step);
    } else if s.lanes[k].closes > 0 {
      var step := Reader(if draining then DrainSkip else Skip);
      assert Scheduled(step) && Enabled(c, s, step);
    } else if k < |s.lanes| - 1 {
      assert LaneInv(c.endpoints[k], s.lanes[k], c.bufferSize);
      var step := LaneMove(c, s, k);
    } else {
      LastChannelProgress(c, s);
    }
  }

  // ---------------------------------------------------------------------
  // Every internal step makes a measure smaller
  // ---------------------------------------------------------------------

  ghost function Sum(w: seq<nat>): nat {
    if w == [] then 0 else Sum(w[..|w| - 1]) + w[|w| - 1]
  }

  lemma {:induction false} SumUpdate(w: seq<nat>, i: nat, v: nat)
    requires i < |w|
    ensures Sum(w[i := v]) == Sum(w) - w[i] + v
    decreases |w|
  {
    var n := |w| - 1;
    if i == n { assert w[i := v][..n] == w[..n]; }
    else {
      assert w[i := v][..n] == w[..n][i := v];
      SumUpdate(w[..n], i, v);
    }
  }

  function PhaseWeight(p: Phase): nat {
    match p
    case Starting => 4
    case Running => 3
    case Sending(_) => 5
    case Returning(_) => 2
    case Exiting(_) => 1
    case Ended(_) => 0
  }

  function LaneWeight(e: Endpoint, l: Lane): nat {
    3 * (if l.taken <= |e.records| then |e.records| - l.taken else 0) + PhaseWeight(l.phase) + |l.buf|
  }

  function Weights(c: Config, s: State): seq<nat>
    requires |s.lanes| == |c.endpoints|
  {
    seq(|s.lanes|, i requires 0 <= i < |s.lanes| => LaneWeight(c.endpoints[i], s.lanes[i]))
  }

  function ControlWeight(s: State): nat {
    var n := |s.lanes|;
    (match s.closer case Waiting => 2 case Published => 1 case Finished => 0)
    + (if s.parentCancelled then 0 else 1)
    + (if s.cur <= n then n - s.cur else 0)
    + (match s.consumer
       case Draining(k) => if k <= n then n - k else 0
       case Freed => 0
       case _ => n)
  }

  /** Unsent records, running goroutines, buffered records, open channels and the
      distance the consumer still has to go. */
  ghost function Measure(c: Config, s: State): nat
    requires |s.lanes| == |c.endpoints|
  {
    Sum(Weights(c, s)) + ControlWeight(s)
  }

  lemma {:induction false} MovePays(e: Endpoint, l: Lane, cancelled: bool, bufferSize: nat, isLast: bool, m: Move)
    requires CanMove(e, l, cancelled, bufferSize, m)
    ensures LaneWeight(e, Moved(e, l, isLast, m)) < LaneWeight(e, l)
  {
  }

  /** The lanes weigh less after lane `j` has become lighter. */
  lemma {:induction false} LighterLane(c: Config, s: State, j: nat, n: Lane)
    requires |s.lanes| == |c.endpoints| && j < |s.lanes|
    ensures Sum(Weights(c, s.(lanes := s.lanes[j := n])))
            == Sum(Weights(c, s)) - LaneWeight(c.endpoints[j], s.lanes[j]) + LaneWeight(c.endpoints[j], n)
  {
    assert Weights(c, s.(lanes := s.lanes[j := n])) == Weights(c, s)[j := LaneWeight(c.endpoints[j], n)];
    SumUpdate(Weights(c, s), j, LaneWeight(c.endpoints[j], n));
  }

  lemma {:induction false} SameLanesSameWeight(c: Config, s: State, t: State)
    requires |s.lanes| == |c.endpoints| && t.lanes == s.lanes
    ensures Weights(c, t) == Weights(c, s)
  {
  }

  lemma {:induction false} GroupPays(c: Config, s: State, g: GroupAction)
    requires |s.lanes| == |c.endpoints| && GroupEnabled(s, g)
    ensures |GroupApply(s, g).lanes| == |s.lanes|
    ensures Measure(c, GroupApply(s, g)) < Measure(c, s)
  {
    hide Sum, Weights;
    var t := GroupApply(s, g);
    match g
    case Exit(i) => LighterLane(c, s, i, t.lanes[i]); SameLanesSameWeight(c, s.(lanes := s.lanes[i := t.lanes[i]]), t);
    case CloseLast =>
      var i := |s.lanes| - 1;
      LighterLane(c, s, i, t.lanes[i]); SameLanesSameWeight(c, s.(lanes := s.lanes[i := t.lanes[i]]), t);
    case Publish => SameLanesSameWeight(c, s, t);
    case CancelParent => SameLanesSameWeight(c, s, t);
  }

  lemma {:induction false} ReaderPays(c: Config, s: State, a: ReaderAction)
    requires |s.lanes| == |c.endpoints| && ReaderEnabled(s, a) && Internal(Reader(a)) && s.cur <= |s.lanes|
    ensures |ReaderApply(s, a).lanes| == |s.lanes|
    ensures Measure(c, ReaderApply(s, a)) < Measure(c, s)
  {
    hide Sum, Weights;
    ReaderLanes(s, a);
    var t, k := ReaderApply(s, a), Source(s);
    if Takes(a) {
      LighterLane(c, s, k, Pop(s.lanes[k]));
      SameLanesSameWeight(c, s.(lanes := s.lanes[k := Pop(s.lanes[k])]), t);
    } else {
      SameLanesSameWeight(c, s, t);
    }
  }

  lemma {:induction false} InternalStepDecreases(c: Config, s: State, step: Step)
    requires |s.lanes| == |c.endpoints| && Enabled(c, s, step) && Internal(step)
    requires s.cur <= |s.lanes|
    ensures Measure(c, Apply(c, s, step)) < Measure(c, s)
  {
    match step
    case Goroutine(i, m) =>
      var e, l, isLast := c.endpoints[i], s.lanes[i], i == |s.lanes| - 1;
      MovePays(e, l, s.cancelled, c.bufferSize, isLast, m);
      LighterLane(c, s, i, Moved(e, l, isLast, m));
    case Group(g) => GroupPays(c, s, g);
    case Reader(a) => ReaderPays(c, s, a);
  }

  predicate InternalRun(c: Config, s: State, steps: seq<Step>)
    requires |s.lanes| == |c.endpoints|
  {
    ValidRun(c, s, steps) && forall k | 0 <= k < |steps| :: Internal(steps[k])
  }

  /** Under every schedule, at most Measure steps happen between two calls of the
      application. */
  lemma {:induction false} InternalRunsAreBounded(c: Config, s: State, steps: seq<Step>)
    requires Inv(c, s) && InternalRun(c, s, steps)
    ensures |steps| + Measure(c, RunFrom(c, s, steps)) <= Measure(c, s)
    decreases |steps|
  {
    hide LanesInv, ClosesInv, GroupInv, CancelInv, HistoryInv, Measure, Enabled;
    if steps != [] {
      InternalStepDecreases(c, s, steps[0]);
      StepKeepsInv(c, s, steps[0]);
      InternalRunsAreBounded(c, Apply(c, s, steps[0]), steps[1..]);
    }
  }

  /** Between calls of the application a Next stays in Next or returns, and a last
      Release keeps draining or is done. */
  predicate CallContinues(s: State, t: State) {
    match s.consumer
    case Idle => t.consumer.Idle? && t.nextResult == s.nextResult
    case Receiving => t.consumer.Receiving? || (t.consumer.Idle? && t.nextResult.Some?)
    case Draining(_) => t.consumer.Draining? || t.consumer.Freed?
    case Freed => t.consumer.Freed?
  }

  lemma {:induction false} InternalRunContinuesCall(c: Config, s: State, steps: seq<Step>)
    requires |s.lanes| == |c.endpoints| && InternalRun(c, s, steps)
    ensures CallContinues(s, RunFrom(c, s, steps))
    decreases |steps|
  {
    if steps != [] {
      assert CallContinues(s, Apply(c, s, steps[0]));
      InternalRunContinuesCall(c, Apply(c, s, steps[0]), steps[1..]);
    }
  }

  lemma {:induction false} RunsCompose(c: Config, s: State, steps: seq<Step>, more: seq<Step>)
    requires Inv(c, s) && ValidRun(c, s, steps) && InternalRun(c, RunFrom(c, s, steps), more)
    ensures Inv(c, RunFrom(c, s, steps)) && Inv(c, RunFrom(c, RunFrom(c, s, steps), more))
  {
    RunKeepsInv(c, s, steps);
    RunKeepsInv(c, RunFrom(c, s, steps), more);
  }

  // ---------------------------------------------------------------------
  // Termination of the two blocking calls
  // ---------------------------------------------------------------------

  /** The last Release terminates: from any reachable draining state, a run that
      cannot be continued has freed the reader, every goroutine has ended and the
      closer is done, and no run is longer than the measure. */
  lemma {:induction false} ReleaseTerminates(c: Config, steps: seq<Step>, more: seq<Step>)
    requires ValidConfig(c) && ValidRun(c, Init(c), steps)
    requires RunFrom(c, Init(c), steps).consumer.Draining?
    requires InternalRun(c, RunFrom(c, Init(c), steps), more)
    ensures |more| <= Measure(c, RunFrom(c, Init(c), steps))
    ensures var t := RunFrom(c, RunFrom(c, Init(c), steps), more);
            Quiescent(c, t) ==>
              t.consumer.Freed? && t.closer.Finished? && forall i | 0 <= i < |t.lanes| :: HasEnded(t.lanes[i])
  {
    InitInv(c);
    RunsCompose(c, Init(c), steps, more);
    var s := RunFrom(c, Init(c), steps);
    InternalRunsAreBounded(c, s, more);
    InternalRunContinuesCall(c, s, more);
    var t := RunFrom(c, s, more);
    if Quiescent(c, t) {
      if Waits(t) {
        WaitingMeansProgress(c, t);
        assert false;
      }
      assert t.lanes[|t.lanes| - 1].closes > 0;
    }
  }

  /** Next terminates: from any reachable state inside Next, a run that cannot be
      continued has returned a result, and no run is longer than the measure. */
  lemma {:induction false} NextTerminates(c: Config, steps: seq<Step>, more: seq<Step>)
    requires ValidConfig(c) && ValidRun(c, Init(c), steps)
    requires RunFrom(c, Init(c), steps).consumer.Receiving?
    requires InternalRun(c, RunFrom(c, Init(c), steps), more)
    ensures |more| <= Measure(c, RunFrom(c, Init(c), steps))
    ensures var t := RunFrom(c, RunFrom(c, Init(c), steps), more);
            Quiescent(c, t) ==> t.consumer.Idle? && t.nextResult.Some?
  {
    InitInv(c);
    RunsCompose(c, Init(c), steps, more);
    var s := RunFrom(c, Init(c), steps);
    InternalRunsAreBounded(c, s, more);
    InternalRunContinuesCall(c, s, more);
    var t := RunFrom(c, s, more);
    if Quiescent(c, t) && Waits(t) {
      WaitingMeansProgress(c, t);
      assert false;
    }
  }
}
