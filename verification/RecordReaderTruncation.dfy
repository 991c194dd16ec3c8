/** What a cancelled parent context can do: which readers can end early without an error. */
module RecordReaderTruncation {
  import opened RecordReader
  import opened Wrappers

  /** The endpoint can be opened, and passes the comparison of schemas where there is one. */
  predicate Opens(c: Config, i: nat)
    requires i < |c.endpoints|
  {
    c.endpoints[i].openError.None? && (c.schemaGiven ==> c.endpoints[i].schemaMatches)
  }

  /** It also can stop without an error: in the middle of its records, or at the end of a
      stream that ends well. */
  predicate CanStopCleanly(c: Config, i: nat)
    requires i < |c.endpoints|
  {
    Opens(c, i) && (c.endpoints[i].records == [] ==> c.endpoints[i].streamError.None?)
  }

  predicate AllCanStop(c: Config) { forall i | 0 <= i < |c.endpoints| :: CanStopCleanly(c, i) }

  /** A run after which the application has seen the end of the stream and a nil error, but
      not everything the endpoints had. */
  ghost predicate Truncates(c: Config, steps: seq<Step>) {
    && ValidRun(c, Init(c), steps)
    && var s := RunFrom(c, Init(c), steps);
       && s.nextResult == Some(false) && s.readerError.None? && s.refCount > 0
       && s.delivered != AllRecords(c.endpoints, |c.endpoints|)
  }

  // ---------------------------------------------------------------------
  // A truncating run
  // ---------------------------------------------------------------------

  ghost predicate Reaches(c: Config, s: State, t: State) {
    && |s.lanes| == |c.endpoints|
    && exists steps: seq<Step> :: ValidRun(c, s, steps) && RunFrom(c, s, steps) == t
  }

  lemma {:induction false} ReachesItself(c: Config, s: State)
    requires |s.lanes| == |c.endpoints|
    ensures Reaches(c, s, s)
  {
    assert ValidRun(c, s, []) && RunFrom(c, s, []) == s;
  }

  lemma {:induction false} StepReaches(c: Config, s: State, step: Step, t: State)
    requires |s.lanes| == |c.endpoints| && Enabled(c, s, step) && Reaches(c, Apply(c, s, step), t)
    ensures Reaches(c, s, t)
  {
    var rest :| ValidRun(c, Apply(c, s, step), rest) && RunFrom(c, Apply(c, s, step), rest) == t;
    var steps := [step] + rest;
    assert steps[1..] == rest;
    assert ValidRun(c, s, steps) && RunFrom(c, s, steps) == t;
  }

  const RUNNING := Lane(Running, 0, [], 0, 0)

  /** The first k endpoints have been opened. */
  function Opening(c: Config, k: nat): State {
    Init(c).(lanes := seq(|c.endpoints|, i => if i < k || !c.schemaGiven then RUNNING else RUNNING.(phase := Starting)))
  }

  /** The parent has cancelled, and the first k goroutines have stopped for it. */
  function Stopping(c: Config, k: nat): State {
    var n := |c.endpoints|;
    Init(c).(lanes := seq(n, i => if i < k then Lane(Ended(None), 0, [], if i == n - 1 then 0 else 1, 0) else RUNNING),
             cancelled := true, parentCancelled := true)
  }

  /** All have stopped, every channel is closed, and no error was published. */
  function AllClosed(c: Config): State {
    Stopping(c, 0).(lanes := seq(|c.endpoints|, _ => Lane(Ended(None), 0, [], 1, 0)), closer := Finished)
  }

  /** Next has passed over the first k channels. */
  function Skipping(c: Config, k: nat): State { AllClosed(c).(consumer := Receiving, cur := k) }

  function AtEnd(c: Config): State { AllClosed(c).(cur := |c.endpoints|, nextResult := Some(false)) }

  lemma {:induction false} SkippingReachesEnd(c: Config, k: nat)
    requires k < |c.endpoints|
    ensures Reaches(c, Skipping(c, k), AtEnd(c))
    decreases |c.endpoints| - k
  {
    var s := Skipping(c, k);
    if k + 1 < |c.endpoints| { SkippingReachesEnd(c, k + 1); } else { ReachesItself(c, AtEnd(c)); }
    StepReaches(c, s, Reader(Skip), AtEnd(c));
  }

  lemma {:induction false} StoppedReachesEnd(c: Config)
    requires |c.endpoints| > 0
    ensures Reaches(c, Stopping(c, |c.endpoints|), AtEnd(c))
  {
    var s := Stopping(c, |c.endpoints|);
    var published := s.(closer := Published);
    SkippingReachesEnd(c, 0);
    var closed := AllClosed(c);
    assert closed.released + Opt(closed.rec) == [];
    assert Apply(c, closed, Reader(CallNext)) == Skipping(c, 0);
    StepReaches(c, closed, Reader(CallNext), AtEnd(c));
    assert Apply(c, published, Group(CloseLast)) == closed;
    StepReaches(c, published, Group(CloseLast), AtEnd(c));
    StepReaches(c, s, Group(Publish), AtEnd(c));
  }

  /** A running goroutine that has taken nothing can stop cleanly after a cancellation. */
  lemma StopsHere(c: Config, k: nat)
    requires k < |c.endpoints| && AllCanStop(c)
    ensures var stop := if c.endpoints[k].records == [] then EndOfStream else Abort(None);
            && CanMove(c.endpoints[k], RUNNING, true, c.bufferSize, stop)
            && Moved(c.endpoints[k], RUNNING, k == |c.endpoints| - 1, stop) == RUNNING.(phase := Returning(None))
  {
    assert CanStopCleanly(c, k);
  }

  lemma Returns(c: Config, k: nat, e: Endpoint)
    requires k < |c.endpoints|
    ensures CanMove(e, RUNNING.(phase := Returning(None)), true, c.bufferSize, Return)
  {
  }

  lemma {:induction false} StoppingReachesEnd(c: Config, k: nat)
    requires k <= |c.endpoints| && |c.endpoints| > 0 && AllCanStop(c)
    ensures Reaches(c, Stopping(c, k), AtEnd(c))
    decreases |c.endpoints| - k
  {
    hide AllCanStop, CanMove, Reaches, AtEnd;
    if k == |c.endpoints| { StoppedReachesEnd(c); } else {
      StoppingReachesEnd(c, k + 1);
      var s := Stopping(c, k);
      StopsHere(c, k);
      var stop := if c.endpoints[k].records == [] then EndOfStream else Abort(None);
      var aborted := s.(lanes := s.lanes[k := RUNNING.(phase := Returning(None))]);
      var left := Lane(Exiting(None), 0, [], if k == |c.endpoints| - 1 then 0 else 1, 0);
      var returned := s.(lanes := s.lanes[k := left]);
      assert Apply(c, returned, Group(Exit(k))) == Stopping(c, k + 1);
      StepReaches(c, returned, Group(Exit(k)), AtEnd(c));
      Returns(c, k, c.endpoints[k]);
      assert Apply(c, aborted, Goroutine(k, Return)) == returned;
      StepReaches(c, aborted, Goroutine(k, Return), AtEnd(c));
      StepReaches(c, s, Goroutine(k, stop), AtEnd(c));
    }
  }

  lemma {:induction false} OpeningReachesEnd(c: Config, k: nat)
    requires k <= |c.endpoints| && |c.endpoints| > 0 && c.schemaGiven && AllCanStop(c)
    ensures Reaches(c, Opening(c, k), AtEnd(c))
    decreases |c.endpoints| - k
  {
    var s := Opening(c, k);
    if k == |c.endpoints| {
      StoppingReachesEnd(c, 0);
      assert Apply(c, s, Group(CancelParent)) == Stopping(c, 0);
      StepReaches(c, s, Group(CancelParent), AtEnd(c));
    } else {
      OpeningReachesEnd(c, k + 1);
      assert CanStopCleanly(c, k);
      assert Apply(c, s, Goroutine(k, Open)) == Opening(c, k + 1);
      StepReaches(c, s, Goroutine(k, Open), AtEnd(c));
    }
  }

  lemma {:induction false} InitReachesEnd(c: Config)
    requires ValidConfig(c) && AllCanStop(c)
    ensures Reaches(c, Init(c), AtEnd(c))
  {
    if c.schemaGiven {
      OpeningReachesEnd(c, 0);
      assert Opening(c, 0) == Init(c);
    } else {
      StoppingReachesEnd(c, 0);
      assert Apply(c, Init(c), Group(CancelParent)) == Stopping(c, 0);
      StepReaches(c, Init(c), Group(CancelParent), AtEnd(c));
    }
  }

  // ---------------------------------------------------------------------
  // What a goroutine without an error says about its endpoint
  // ---------------------------------------------------------------------

  /** Past opening, and not on the way out with an error. */
  predicate Past(l: Lane) { l.phase.Running? || l.phase.Sending? || StoppedCleanly(l) }

  /** Such a goroutine's endpoint opened; if the goroutine stopped with all records taken, the
      stream ended well. */
  predicate SaysTrue(c: Config, l: Lane, i: nat)
    requires i < |c.endpoints|
  {
    && (Past(l) ==> Opens(c, i))
    && (StoppedCleanly(l) && l.taken == |c.endpoints[i].records| ==> c.endpoints[i].streamError.None?)
  }

  ghost predicate AllSayTrue(c: Config, s: State) {
    |s.lanes| == |c.endpoints| && forall i | 0 <= i < |s.lanes| :: SaysTrue(c, s.lanes[i], i)
  }

  lemma {:induction false} MoveSaysTrue(c: Config, l: Lane, i: nat, cancelled: bool, isLast: bool, m: Move)
    requires ValidConfig(c) && i < |c.endpoints| && SaysTrue(c, l, i)
    requires CanMove(c.endpoints[i], l, cancelled, c.bufferSize, m)
    ensures SaysTrue(c, Moved(c.endpoints[i], l, isLast, m), i)
  {
  }

  lemma {:induction false} StepKeepsTrue(c: Config, s: State, step: Step)
    requires ValidConfig(c) && AllSayTrue(c, s) && Enabled(c, s, step)
    ensures AllSayTrue(c, Apply(c, s, step))
  {
    hide SaysTrue;
    var t := Apply(c, s, step);
    match step {
      case Goroutine(i, m) =>
        MoveSaysTrue(c, s.lanes[i], i, s.cancelled, i == |s.lanes| - 1, m);
      case Group(g) =>
        forall i | 0 <= i < |t.lanes| ensures SaysTrue(c, t.lanes[i], i) { SameSays(c, s.lanes[i], t.lanes[i], i); }
      case Reader(a) =>
        ReaderLanes(s, a);
        forall i | 0 <= i < |t.lanes| ensures SaysTrue(c, t.lanes[i], i) { SameSays(c, s.lanes[i], t.lanes[i], i); }
    }
  }

  /** Leaving the group and being drained changes nothing. */
  lemma SameSays(c: Config, l: Lane, n: Lane, i: nat)
    requires i < |c.endpoints| && SaysTrue(c, l, i) && n.taken == l.taken
    requires n.phase == l.phase || (l.phase.Exiting? && n.phase == Ended(l.phase.error))
    ensures SaysTrue(c, n, i)
  {
  }

  lemma {:induction false} RunKeepsTrue(c: Config, s: State, steps: seq<Step>)
    requires ValidConfig(c) && AllSayTrue(c, s) && ValidRun(c, s, steps)
    ensures AllSayTrue(c, RunFrom(c, s, steps))
    decreases |steps|
  {
    if steps != [] {
      StepKeepsTrue(c, s, steps[0]);
      RunKeepsTrue(c, Apply(c, s, steps[0]), steps[1..]);
    }
  }

  // ---------------------------------------------------------------------
  // Only such readers can be truncated
  // ---------------------------------------------------------------------

  lemma {:induction false} FlatWithin(c: Config, lanes: seq<Lane>, k: nat)
    requires k <= |lanes| == |c.endpoints|
    requires forall i | 0 <= i < |lanes| :: lanes[i].got <= |c.endpoints[i].records|
    ensures |Flat(c, lanes, k)| <= |AllRecords(c.endpoints, k)|
  {
    if k > 0 { FlatWithin(c, lanes, k - 1); }
  }

  lemma {:induction false} TruncationNeeds(c: Config, steps: seq<Step>)
    requires ValidConfig(c) && Truncates(c, steps)
    ensures AllCanStop(c) && AllRecords(c.endpoints, |c.endpoints|) != []
    ensures RunFrom(c, Init(c), steps).parentCancelled
  {
    hide Flat, AllRecords;
    var s := RunFrom(c, Init(c), steps);
    NextFalseMeansDone(c, steps);
    DeliveredInEndpointOrder(c, steps);
    FlatWithin(c, s.lanes, |s.lanes|);
    RunKeepsTrue(c, Init(c), steps);
    EndedWithoutError(c, steps);
    forall i | 0 <= i < |s.lanes| ensures CanStopCleanly(c, i) {
      assert SaysTrue(c, s.lanes[i], i) && Past(s.lanes[i]);
    }
  }

  /** At the end of a stream without an error every goroutine has ended without one. */
  lemma {:induction false} EndedWithoutError(c: Config, steps: seq<Step>)
    requires ValidConfig(c) && ValidRun(c, Init(c), steps)
    requires var s := RunFrom(c, Init(c), steps);
             s.nextResult == Some(false) && s.readerError.None? && s.refCount > 0
    ensures forall i | 0 <= i < |c.endpoints| :: StoppedCleanly(RunFrom(c, Init(c), steps).lanes[i])
  {
    hide LanesInv, ClosesInv, CursorInv, CancelInv, HistoryInv;
    InitInv(c);
    RunKeepsInv(c, Init(c), steps);
    NextFalseMeansDone(c, steps);
    var s := RunFrom(c, Init(c), steps);
    forall i | 0 <= i < |s.lanes| ensures StoppedCleanly(s.lanes[i]) { assert HasEnded(s.lanes[i]); }
  }

  /** A reader can be made to end early with a nil error exactly when every endpoint opens,
      every endpoint without records ends its stream well, and some endpoint has a record; and
      only by cancelling the parent context. */
  lemma {:induction false} TruncatesExactly(c: Config)
    requires ValidConfig(c)
    ensures (exists steps: seq<Step> :: Truncates(c, steps))
            <==> AllCanStop(c) && AllRecords(c.endpoints, |c.endpoints|) != []
    ensures forall steps: seq<Step> | Truncates(c, steps) :: RunFrom(c, Init(c), steps).parentCancelled
  {
    forall steps: seq<Step> | Truncates(c, steps)
      ensures AllCanStop(c) && AllRecords(c.endpoints, |c.endpoints|) != []
      ensures RunFrom(c, Init(c), steps).parentCancelled
    {
      TruncationNeeds(c, steps);
    }
    if AllCanStop(c) && AllRecords(c.endpoints, |c.endpoints|) != [] {
      InitReachesEnd(c);
      var steps :| ValidRun(c, Init(c), steps) && RunFrom(c, Init(c), steps) == AtEnd(c);
      assert Truncates(c, steps);
    }
  }

  /** An instance: one endpoint with one record. */
  lemma {:induction false} CancelledParentCanTruncateSilently(r: Record) returns (c: Config, steps: seq<Step>)
    ensures ValidConfig(c) && AllRecords(c.endpoints, |c.endpoints|) == [r]
    ensures Truncates(c, steps) && RunFrom(c, Init(c), steps).parentCancelled
  {
    c := Config([Endpoint(None, true, [r], None)], true, 1);
    assert AllRecords(c.endpoints, 1) == AllRecords(c.endpoints, 0) + [r];
    TruncatesExactly(c);
    steps :| Truncates(c, steps);
  }

  // ---------------------------------------------------------------------
  // Which readers end with an error
  // ---------------------------------------------------------------------

  predicate AllGood(c: Config) {
    forall i | 0 <= i < |c.endpoints| :: Opens(c, i) && c.endpoints[i].streamError.None?
  }

  predicate NoError(l: Lane) {
    (l.phase.Returning? || l.phase.Exiting? || l.phase.Ended?) ==> l.phase.error.None?
  }

  /** Nothing has gone wrong, and nothing stops the goroutines before the group is done. */
  ghost predicate Fine(c: Config, s: State) {
    && (forall i | 0 <= i < |s.lanes| :: NoError(s.lanes[i]) && (s.lanes[i].phase.Starting? ==> c.schemaGiven))
    && s.groupError.None?
    && (s.cancelled ==> forall i | 0 <= i < |s.lanes| :: HasEnded(s.lanes[i]))
  }

  /** As long as neither the parent nor the last Release cancels. */
  ghost predicate FineUnlessStopped(c: Config, s: State) {
    |s.lanes| == |c.endpoints| && (!s.parentCancelled && s.refCount > 0 ==> Fine(c, s))
  }

  lemma {:induction false} GoroutineStaysFine(c: Config, s: State, i: nat, m: Move)
    requires ValidConfig(c) && AllGood(c) && |s.lanes| == |c.endpoints| && Fine(c, s)
    requires Enabled(c, s, Goroutine(i, m))
    ensures Fine(c, Apply(c, s, Goroutine(i, m)))
  {
    assert Opens(c, i) && c.endpoints[i].streamError.None?;
    assert NoError(s.lanes[i]) && !HasEnded(s.lanes[i]);
    var t := Apply(c, s, Goroutine(i, m));
    forall k | 0 <= k < |t.lanes| ensures NoError(t.lanes[k]) {
      if k != i { assert t.lanes[k] == s.lanes[k]; }
    }
  }

  lemma {:induction false} GroupStaysFine(c: Config, s: State, g: GroupAction)
    requires Fine(c, s) && GroupEnabled(s, g) && !g.CancelParent?
    ensures Fine(c, GroupApply(s, g))
  {
    var t := GroupApply(s, g);
    if g.Exit? { assert NoError(s.lanes[g.lane]); }
    forall k | 0 <= k < |t.lanes| ensures NoError(t.lanes[k]) { assert NoError(s.lanes[k]); }
    if t.cancelled && s.cancelled {
      forall k | 0 <= k < |t.lanes| ensures HasEnded(t.lanes[k]) { assert HasEnded(s.lanes[k]); }
    }
  }

  lemma {:induction false} ReaderStaysFine(c: Config, s: State, a: ReaderAction)
    requires Fine(c, s) && ReaderEnabled(s, a) && !a.ReleaseLast?
    ensures Fine(c, ReaderApply(s, a))
  {
    ReaderLanes(s, a);
    var t := ReaderApply(s, a);
    forall k | 0 <= k < |t.lanes| ensures NoError(t.lanes[k]) && (HasEnded(s.lanes[k]) ==> HasEnded(t.lanes[k])) {
      assert NoError(s.lanes[k]) && t.lanes[k].phase == s.lanes[k].phase;
    }
    assert t.cancelled == s.cancelled;
  }

  lemma {:induction false} RunStaysFine(c: Config, s: State, steps: seq<Step>)
    requires ValidConfig(c) && AllGood(c) && FineUnlessStopped(c, s) && ValidRun(c, s, steps)
    ensures FineUnlessStopped(c, RunFrom(c, s, steps))
    decreases |steps|
  {
    hide Fine, AllGood, ValidConfig;
    if steps != [] {
      var step, t := steps[0], Apply(c, s, steps[0]);
      if !t.parentCancelled && t.refCount > 0 {
        match step {
          case Goroutine(i, m) => GoroutineStaysFine(c, s, i, m);
          case Group(g) => GroupStaysFine(c, s, g);
          case Reader(a) => ReaderStaysFine(c, s, a);
        }
      }
      RunStaysFine(c, t, steps[1..]);
    }
  }

  /** With an uncancelled parent, a stream read to its end reports an error exactly when some
      endpoint does not open, has another schema than the one given, or ends its stream with
      an error. */
  lemma {:induction false} ErrsExactly(c: Config, steps: seq<Step>)
    requires ValidConfig(c) && ValidRun(c, Init(c), steps)
    requires var s := RunFrom(c, Init(c), steps);
             s.nextResult == Some(false) && s.refCount > 0 && !s.parentCancelled
    ensures RunFrom(c, Init(c), steps).readerError.None? <==> AllGood(c)
  {
    var s := RunFrom(c, Init(c), steps);
    NextFalseMeansDone(c, steps);
    if AllGood(c) {
      RunStaysFine(c, Init(c), steps);
    } else if s.readerError.None? {
      RunKeepsTrue(c, Init(c), steps);
      EndedWithoutError(c, steps);
      AllTaken(c, steps);
      forall i | 0 <= i < |s.lanes| ensures Opens(c, i) && c.endpoints[i].streamError.None? {
        assert SaysTrue(c, s.lanes[i], i) && StoppedCleanly(s.lanes[i]);
      }
      assert false;
    }
  }

  lemma {:induction false} AllTaken(c: Config, steps: seq<Step>)
    requires ValidConfig(c) && ValidRun(c, Init(c), steps)
    requires var s := RunFrom(c, Init(c), steps);
             s.nextResult == Some(false) && s.refCount > 0 && !s.parentCancelled && s.readerError.None?
    ensures forall i | 0 <= i < |c.endpoints| ::
              RunFrom(c, Init(c), steps).lanes[i].taken == |c.endpoints[i].records|
  {
    hide LanesInv, ClosesInv, CursorInv, HistoryInv, GroupInv;
    InitInv(c);
    RunKeepsInv(c, Init(c), steps);
    NextFalseMeansDone(c, steps);
    EndedWithoutError(c, steps);
  }
}
