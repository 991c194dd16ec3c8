/** The Flight SQL record reader: one goroutine per endpoint sends records into
    its own bounded channel, a closer goroutine waits for the whole group, and a
    single consumer drains the channels in endpoint order.

    The reader is a transition system.  A `Lane` is an endpoint's goroutine
    together with its channel; a `Step` is one atomic action of a goroutine, of
    the consumer or of the parent context; a run is any sequence of enabled
    steps, so every interleaving is a run. */
module RecordReader {
  import opened Wrappers

  /** A record is an opaque handle: nothing below looks inside one. */
  type Record = int
  type Error = string

  /** What the server would serve at an endpoint if nothing were cancelled. */
  datatype Endpoint = Endpoint(
    openError: Option<Error>,
    schemaMatches: bool,
    records: seq<Record>,
    streamError: Option<Error>)

  /** `schemaGiven` is `info.Schema != nil`; without it the first endpoint is
      opened before its goroutine starts and its schema is not compared. */
  datatype Config = Config(endpoints: seq<Endpoint>, schemaGiven: bool, bufferSize: nat)

  /** The scope of the model: at least one endpoint, a positive queue size (the
      statement option refuses others) and a channel table that matches the
      endpoints (see RecordReaderWiring). */
  predicate ValidConfig(c: Config) {
    && |c.endpoints| >= 1
    && c.bufferSize >= 1
    && (c.schemaGiven || (|c.endpoints| == 1 && c.endpoints[0].openError.None?))
  }

  datatype Phase =
    | Starting                             // before doGet
    | Running                              // at the loop test
    | Sending(record: Record)              // retained, blocked in the channel send
    | Returning(error: Option<Error>)      // function body left, deferred close pending
    | Exiting(error: Option<Error>)        // deferred close ran, group not yet told
    | Ended(error: Option<Error>)          // group told

  /** `taken` counts Retain calls of the goroutine, `got` counts records the
      consumer has taken out of the channel, `closes` counts close calls. */
  datatype Lane = Lane(phase: Phase, taken: nat, buf: seq<Record>, closes: nat, got: nat)

  datatype Closer = Waiting | Published | Finished

  datatype Consumer = Idle | Receiving | Draining(at: nat) | Freed

  datatype State = State(
    lanes: seq<Lane>,
    cancelled: bool,            // ctx.Err() != nil
    parentCancelled: bool,
    groupError: Option<Error>,
    closer: Closer,
    readerError: Option<Error>,
    consumer: Consumer,
    cur: nat,
    rec: Option<Record>,
    nextResult: Option<bool>,   // what the last completed Next returned
    refCount: nat,
    delivered: seq<Record>,     // history: records Next made current
    released: seq<Record>)      // history: records released by the consumer

  const INCONSISTENT_SCHEMA := "endpoint returned inconsistent schema"

  function Init(c: Config): State {
    State(
      seq(|c.endpoints|, _ => Lane(if c.schemaGiven then Starting else Running, 0, [], 0, 0)),
      false, false, None, Waiting, None, Idle, 0, None, None, 1, [], [])
  }

  /** Actions of an endpoint's goroutine on its own lane. */
  datatype Move = Open | Fetch | Send | EndOfStream | Abort(error: Option<Error>) | Return

  /** Actions of the error group, the closer and the parent context. */
  datatype GroupAction = Exit(lane: nat) | Publish | CloseLast | CancelParent

  /** Actions of the application's side of the reader. */
  datatype ReaderAction =
    | CallNext | Receive | Skip
    | Retain | ReleaseShared | ReleaseLast
    | DrainReceive | DrainSkip

  datatype Step = Goroutine(lane: nat, move: Move) | Group(group: GroupAction) | Reader(action: ReaderAction)

  predicate HasEnded(l: Lane) { l.phase.Ended? }

  /** Guards of a goroutine.  A send waits for room and does not look at the
      context.  Once the context is cancelled an RPC may fail at any time, and the
      loop test stops the goroutine without an error after the stream has given one
      more record. */
  predicate CanMove(e: Endpoint, l: Lane, cancelled: bool, bufferSize: nat, m: Move) {
    match m
    case Open => l.phase.Starting?
    case Fetch => l.phase.Running? && !cancelled && l.taken < |e.records|
    case Send => l.phase.Sending? && |l.buf| < bufferSize
    case EndOfStream => l.phase.Running? && l.taken == |e.records|
    case Abort(error) =>
      && cancelled
      && (l.phase.Running? || (l.phase.Starting? && error.Some?))
      && (error.Some? || l.taken < |e.records|)
    case Return => l.phase.Returning?
  }

  function OpenOutcome(e: Endpoint): Phase {
    if e.openError.Some? then Returning(e.openError)
    else if !e.schemaMatches then Returning(Some(INCONSISTENT_SCHEMA))
    else Running
  }

  /** Every goroutine but the last closes its own channel when it returns. */
  function Moved(e: Endpoint, l: Lane, isLast: bool, m: Move): Lane
    requires m.Fetch? ==> l.taken < |e.records|
    requires m.Send? ==> l.phase.Sending?
    requires m.Return? ==> l.phase.Returning?
  {
    match m
    case Open => l.(phase := OpenOutcome(e))
    case Fetch => l.(phase := Sending(e.records[l.taken]), taken := l.taken + 1)
    case Send => l.(phase := Running, buf := l.buf + [l.phase.record])
    case EndOfStream => l.(phase := Returning(e.streamError))
    case Abort(error) => l.(phase := Returning(error))
    case Return => l.(phase := Exiting(l.phase.error), closes := if isLast then l.closes else l.closes + 1)
  }

  predicate GroupEnabled(s: State, g: GroupAction) {
    match g
    case Exit(i) => i < |s.lanes| && s.lanes[i].phase.Exiting?
    case Publish => s.closer.Waiting? && forall i | 0 <= i < |s.lanes| :: HasEnded(s.lanes[i])
    case CloseLast => s.closer.Published? && |s.lanes| > 0
    case CancelParent => !s.parentCancelled
  }

  /** The group keeps the first error and cancels the shared context on it; the
      closer publishes the error before it closes the last channel. */
  function GroupApply(s: State, g: GroupAction): State
    requires GroupEnabled(s, g)
  {
    match g
    case Exit(i) =>
      var l := s.lanes[i];
      s.(lanes := s.lanes[i := l.(phase := Ended(l.phase.error))],
         groupError := if s.groupError.None? then l.phase.error else s.groupError,
         cancelled := s.cancelled || l.phase.error.Some?)
    case Publish => s.(closer := Published, readerError := s.groupError, cancelled := true)
    case CloseLast =>
      var last := |s.lanes| - 1;
      s.(closer := Finished, lanes := s.lanes[last := s.lanes[last].(closes := s.lanes[last].closes + 1)])
    case CancelParent => s.(cancelled := true, parentCancelled := true)
  }

  /** A receive waits for a record or for a close. */
  predicate ReaderEnabled(s: State, a: ReaderAction) {
    match a
    case CallNext => s.consumer.Idle? && s.refCount > 0
    case Receive => s.consumer.Receiving? && s.cur < |s.lanes| && s.lanes[s.cur].buf != []
    case Skip =>
      && s.consumer.Receiving? && s.cur < |s.lanes|
      && s.lanes[s.cur].buf == [] && s.lanes[s.cur].closes > 0
    case Retain => s.refCount > 0
    case ReleaseShared => s.refCount > 1
    case ReleaseLast => s.refCount == 1 && s.consumer.Idle?
    case DrainReceive => s.consumer.Draining? && s.consumer.at < |s.lanes| && s.lanes[s.consumer.at].buf != []
    case DrainSkip =>
      && s.consumer.Draining? && s.consumer.at < |s.lanes|
      && s.lanes[s.consumer.at].buf == [] && s.lanes[s.consumer.at].closes > 0
  }

  function Opt<T>(o: Option<T>): seq<T> {
    if o.Some? then [o.value] else []
  }

  function Pop(l: Lane): Lane
    requires l.buf != []
  {
    l.(buf := l.buf[1..], got := l.got + 1)
  }

  function ReaderApply(s: State, a: ReaderAction): State
    requires ReaderEnabled(s, a)
  {
    match a
    case CallNext =>
      if s.cur >= |s.lanes| then
        s.(released := s.released + Opt(s.rec), rec := None, nextResult := Some(false))
      else
        s.(released := s.released + Opt(s.rec), rec := None, nextResult := None, consumer := Receiving)
    case Receive =>
      var r := s.lanes[s.cur].buf[0];
      s.(lanes := s.lanes[s.cur := Pop(s.lanes[s.cur])],
         rec := Some(r), delivered := s.delivered + [r], nextResult := Some(true), consumer := Idle)
    case Skip =>
      if s.cur + 1 == |s.lanes| then s.(cur := s.cur + 1, nextResult := Some(false), consumer := Idle)
      else s.(cur := s.cur + 1)
    case Retain => s.(refCount := s.refCount + 1)
    case ReleaseShared => s.(refCount := s.refCount - 1)
    case ReleaseLast =>
      s.(refCount := 0, released := s.released + Opt(s.rec), rec := None, cancelled := true,
         consumer := if |s.lanes| == 0 then Freed else Draining(0))
    case DrainReceive =>
      var k := s.consumer.at;
      s.(lanes := s.lanes[k := Pop(s.lanes[k])], released := s.released + [s.lanes[k].buf[0]])
    case DrainSkip =>
      s.(consumer := if s.consumer.at + 1 == |s.lanes| then Freed else Draining(s.consumer.at + 1))
  }

  predicate Enabled(c: Config, s: State, step: Step)
    requires |s.lanes| == |c.endpoints|
  {
    match step
    case Goroutine(i, m) => i < |s.lanes| && CanMove(c.endpoints[i], s.lanes[i], s.cancelled, c.bufferSize, m)
    case Group(g) => GroupEnabled(s, g)
    case Reader(a) => ReaderEnabled(s, a)
  }

  function Apply(c: Config, s: State, step: Step): (t: State)
    requires |s.lanes| == |c.endpoints| && Enabled(c, s, step)
    ensures |t.lanes| == |s.lanes|
  {
    match step
    case Goroutine(i, m) => s.(lanes := s.lanes[i := Moved(c.endpoints[i], s.lanes[i], i == |s.lanes| - 1, m)])
    case Group(g) => GroupApply(s, g)
    case Reader(a) => ReaderApply(s, a)
  }

  predicate ValidRun(c: Config, s: State, steps: seq<Step>)
    requires |s.lanes| == |c.endpoints|
    decreases |steps|
  {
    steps == [] || (Enabled(c, s, steps[0]) && ValidRun(c, Apply(c, s, steps[0]), steps[1..]))
  }

  function RunFrom(c: Config, s: State, steps: seq<Step>): (t: State)
    requires |s.lanes| == |c.endpoints| && ValidRun(c, s, steps)
    ensures |t.lanes| == |c.endpoints|
    decreases |steps|
  {
    if steps == [] then s else RunFrom(c, Apply(c, s, steps[0]), steps[1..])
  }

  // ---------------------------------------------------------------------
  // The records taken out of the channels, in channel order
  // ---------------------------------------------------------------------

  /** The first `got` records of each of the first `k` endpoints, concatenated. */
  ghost function Flat(c: Config, lanes: seq<Lane>, k: nat): seq<Record>
    requires k <= |lanes| == |c.endpoints|
    requires forall i | 0 <= i < k :: lanes[i].got <= |c.endpoints[i].records|
  {
    if k == 0 then [] else Flat(c, lanes, k - 1) + c.endpoints[k - 1].records[..lanes[k - 1].got]
  }

  /** Every record of the first `k` endpoints, in endpoint order. */
  function AllRecords(endpoints: seq<Endpoint>, k: nat): seq<Record>
    requires k <= |endpoints|
  {
    if k == 0 then [] else AllRecords(endpoints, k - 1) + endpoints[k - 1].records
  }

  lemma {:induction false} FlatFrame(c: Config, a: seq<Lane>, b: seq<Lane>, k: nat)
    requires k <= |a| == |b| == |c.endpoints|
    requires forall i | 0 <= i < k :: a[i].got == b[i].got <= |c.endpoints[i].records|
    ensures Flat(c, a, k) == Flat(c, b, k)
  {
    if k > 0 { FlatFrame(c, a, b, k - 1); }
  }

  lemma {:induction false} FlatUntouched(c: Config, a: seq<Lane>, j: nat, k: nat)
    requires j <= k <= |a| == |c.endpoints|
    requires forall i | 0 <= i < k :: a[i].got <= |c.endpoints[i].records|
    requires forall i | j <= i < k :: a[i].got == 0
    ensures Flat(c, a, k) == Flat(c, a, j)
  {
    if k > j { FlatUntouched(c, a, j, k - 1); }
  }

  /** Taking one more record from lane `j`, with later lanes untouched, appends
      that record to the concatenation. */
  lemma {:induction false} FlatGrows(c: Config, a: seq<Lane>, b: seq<Lane>, j: nat)
    requires j < |a| == |b| == |c.endpoints|
    requires forall i | 0 <= i < |a| :: a[i].got <= |c.endpoints[i].records| && b[i].got <= |c.endpoints[i].records|
    requires forall i | 0 <= i < |a| && i != j :: a[i].got == b[i].got
    requires forall i | j < i < |a| :: a[i].got == 0
    requires b[j].got == a[j].got + 1
    ensures Flat(c, b, |b|) == Flat(c, a, |a|) + [c.endpoints[j].records[a[j].got]]
  {
    FlatUntouched(c, a, j + 1, |a|);
    FlatUntouched(c, b, j + 1, |b|);
    FlatFrame(c, a, b, j);
    var r, n := c.endpoints[j].records, a[j].got;
    assert Flat(c, a, j + 1) == Flat(c, a, j) + r[..n];
    assert Flat(c, b, j + 1) == Flat(c, a, j) + r[..n + 1];
    assert r[..n + 1] == r[..n] + [r[n]];
  }

  lemma {:induction false} FlatComplete(c: Config, a: seq<Lane>, k: nat)
    requires k <= |a| == |c.endpoints|
    requires forall i | 0 <= i < k :: a[i].got == |c.endpoints[i].records|
    ensures Flat(c, a, k) == AllRecords(c.endpoints, k)
  {
    if k > 0 { FlatComplete(c, a, k - 1); }
  }

  // ---------------------------------------------------------------------
  // The invariant
  // ---------------------------------------------------------------------

  /** Records that have left the goroutine for the channel. */
  function Pushed(l: Lane): int {
    if l.phase.Sending? then l.taken - 1 else l.taken
  }

  predicate HasReturned(l: Lane) { l.phase.Exiting? || l.phase.Ended? }

  /** A channel holds exactly the records sent and not yet received, in order. */
  predicate LaneInv(e: Endpoint, l: Lane, bufferSize: nat) {
    && l.got <= Pushed(l) <= l.taken <= |e.records|
    && l.buf == e.records[l.got..Pushed(l)]
    && |l.buf| <= bufferSize
    && (l.phase.Sending? ==> l.phase.record == e.records[l.taken - 1])
  }

  predicate LanesInv(c: Config, s: State)
    requires |s.lanes| == |c.endpoints|
    ensures LanesInv(c, s) ==> forall i | 0 <= i < |s.lanes| :: s.lanes[i].got <= |c.endpoints[i].records|
  {
    forall i | 0 <= i < |s.lanes| :: LaneInv(c.endpoints[i], s.lanes[i], c.bufferSize)
  }

  /** The lane the consumer has reached, in Next or while draining. */
  function Position(s: State): nat {
    match s.consumer
    case Draining(k) => if k < s.cur then s.cur else k
    case Freed => |s.lanes|
    case _ => s.cur
  }

  predicate ClosesInv(s: State) {
    forall i | 0 <= i < |s.lanes| ::
      s.lanes[i].closes == (if i == |s.lanes| - 1 then (if s.closer.Finished? then 1 else 0)
                            else if HasReturned(s.lanes[i]) then 1 else 0)
  }

  predicate CursorInv(s: State) {
    && s.cur <= |s.lanes| && Position(s) <= |s.lanes|
    && (forall i | 0 <= i < Position(s) && i < |s.lanes| :: s.lanes[i].closes > 0 && s.lanes[i].buf == [])
    && (forall i | Position(s) < i < |s.lanes| :: s.lanes[i].got == 0)
    && (s.consumer.Receiving? ==> s.cur < |s.lanes| && s.rec.None? && s.nextResult.None?)
    && (s.consumer.Draining? ==> s.consumer.at < |s.lanes|)
    && (s.nextResult == Some(false) ==> s.cur == |s.lanes|)
    && (s.rec.Some? ==> s.nextResult == Some(true))
  }

  predicate GroupInv(s: State) {
    && (s.groupError.Some? ==> s.cancelled)
    && (s.groupError.Some? ==> exists i | 0 <= i < |s.lanes| :: s.lanes[i].phase == Ended(s.groupError))
    && (forall i | 0 <= i < |s.lanes| && HasEnded(s.lanes[i]) && s.groupError.None? :: s.lanes[i].phase == Ended(None))
    && (!s.closer.Waiting? ==>
          s.readerError == s.groupError && s.cancelled && forall i | 0 <= i < |s.lanes| :: HasEnded(s.lanes[i]))
  }

  predicate LastReferenceGone(s: State) { s.consumer.Draining? || s.consumer.Freed? }

  predicate Undisturbed(s: State) { !s.parentCancelled && !LastReferenceGone(s) && s.groupError.None? }

  predicate StoppedCleanly(l: Lane) {
    l.phase == Returning(None) || l.phase == Exiting(None) || l.phase == Ended(None)
  }

  /** Only an error, the parent or the last Release can stop a goroutine early. */
  predicate CancelInv(c: Config, s: State)
    requires |s.lanes| == |c.endpoints|
  {
    && (Undisturbed(s) && s.closer.Waiting? ==> !s.cancelled)
    && (Undisturbed(s) ==>
          forall i | 0 <= i < |s.lanes| && StoppedCleanly(s.lanes[i]) :: s.lanes[i].taken == |c.endpoints[i].records|)
    && (LastReferenceGone(s) ==> s.cancelled && s.rec.None?)
    && (LastReferenceGone(s) <==> s.refCount == 0)
  }

  ghost predicate HistoryInv(c: Config, s: State)
    requires |s.lanes| == |c.endpoints|
    requires forall i | 0 <= i < |s.lanes| :: s.lanes[i].got <= |c.endpoints[i].records|
  {
    && s.released + Opt(s.rec) == Flat(c, s.lanes, |s.lanes|)
    && s.delivered <= Flat(c, s.lanes, |s.lanes|)
    && (!LastReferenceGone(s) ==> s.delivered == Flat(c, s.lanes, |s.lanes|))
  }

  ghost predicate Inv(c: Config, s: State) {
    && ValidConfig(c)
    && |s.lanes| == |c.endpoints|
    && LanesInv(c, s)
    && ClosesInv(s)
    && CursorInv(s)
    && GroupInv(s)
    && CancelInv(c, s)
    && HistoryInv(c, s)
  }

  lemma {:induction false} InitInv(c: Config)
    requires ValidConfig(c)
    ensures Inv(c, Init(c))
  {
    FlatUntouched(c, Init(c).lanes, 0, |c.endpoints|);
  }

  // ---------------------------------------------------------------------
  // Every step keeps the invariant
  // ---------------------------------------------------------------------

  /** What a goroutine's move does to its own lane. */
  lemma {:induction false} MoveFacts(e: Endpoint, l: Lane, cancelled: bool, bufferSize: nat, isLast: bool, m: Move)
    requires CanMove(e, l, cancelled, bufferSize, m) && LaneInv(e, l, bufferSize)
    ensures var n := Moved(e, l, isLast, m);
            && LaneInv(e, n, bufferSize)
            && n.got == l.got && !HasReturned(l) && !HasEnded(n)
            && n.closes == l.closes + (if !isLast && HasReturned(n) then 1 else 0)
            && (StoppedCleanly(n) && !cancelled ==> n.taken == |e.records| || (StoppedCleanly(l) && n.taken == l.taken))
  {
    if m.Send? { assert e.records[l.got..l.taken] == e.records[l.got..l.taken - 1] + [e.records[l.taken - 1]]; }
  }

  lemma {:induction false} ClosedLanesAreDone(s: State, i: nat)
    requires i < |s.lanes| && ClosesInv(s) && GroupInv(s)
    ensures s.lanes[i].closes <= 1
    ensures s.lanes[i].closes > 0 ==> HasReturned(s.lanes[i])
  {
    if s.closer.Finished? { assert HasEnded(s.lanes[i]); }
  }

  lemma {:induction false} GoroutineKeepsInv(c: Config, s: State, i: nat, m: Move)
    requires Inv(c, s) && Enabled(c, s, Goroutine(i, m))
    ensures Inv(c, Apply(c, s, Goroutine(i, m)))
  {
    var e, l, isLast := c.endpoints[i], s.lanes[i], i == |s.lanes| - 1;
    assert LaneInv(e, l, c.bufferSize);
    MoveFacts(e, l, s.cancelled, c.bufferSize, isLast, m);
    ClosedLanesAreDone(s, i);
    LaneReplaced(c, s, i, Moved(e, l, isLast, m));
  }

  /** Replacing a lane that has not returned by one whose goroutine has moved. */
  lemma {:induction false} LaneReplaced(c: Config, s: State, i: nat, n: Lane)
    requires Inv(c, s) && i < |s.lanes|
    requires !HasReturned(s.lanes[i]) && s.lanes[i].closes == 0
    requires LaneInv(c.endpoints[i], n, c.bufferSize) && n.got == s.lanes[i].got && !HasEnded(n)
    requires n.closes == (if i != |s.lanes| - 1 && HasReturned(n) then 1 else 0)
    requires StoppedCleanly(n) && !s.cancelled ==>
               n.taken == |c.endpoints[i].records| || (StoppedCleanly(s.lanes[i]) && n.taken == s.lanes[i].taken)
    ensures Inv(c, s.(lanes := s.lanes[i := n]))
  {
    hide LaneInv, Flat;
    var t := s.(lanes := s.lanes[i := n]);
    assert LanesInv(c, t) && ClosesInv(t);
    assert CursorInv(t) by { assert Position(t) == Position(s) <= |s.lanes|; }
    assert GroupInv(t) by {
      if s.groupError.Some? {
        var j :| 0 <= j < |s.lanes| && s.lanes[j].phase == Ended(s.groupError);
        assert t.lanes[j].phase == Ended(t.groupError);
      }
      assert !HasEnded(s.lanes[i]);
    }
    assert CancelInv(c, t) by { assert !HasEnded(s.lanes[i]); }
    FlatFrame(c, s.lanes, t.lanes, |s.lanes|);
  }

  // Steps of the group, one part of the invariant at a time.

  lemma {:induction false} GroupKeepsLanes(c: Config, s: State, g: GroupAction)
    requires |s.lanes| == |c.endpoints| && GroupEnabled(s, g) && LanesInv(c, s) && ClosesInv(s)
    ensures var t := GroupApply(s, g);
            && |t.lanes| == |s.lanes| && LanesInv(c, t) && ClosesInv(t)
            && forall i | 0 <= i < |s.lanes| :: t.lanes[i].got == s.lanes[i].got
  {
    var t := GroupApply(s, g);
    forall i | 0 <= i < |t.lanes| ensures LaneInv(c.endpoints[i], t.lanes[i], c.bufferSize) {
      assert LaneInv(c.endpoints[i], s.lanes[i], c.bufferSize);
    }
  }

  lemma {:induction false} GroupKeepsCursor(s: State, g: GroupAction)
    requires GroupEnabled(s, g) && CursorInv(s)
    ensures CursorInv(GroupApply(s, g))
  {
    assert Position(GroupApply(s, g)) == Position(s);
  }

  lemma {:induction false} GroupKeepsGroup(s: State, g: GroupAction)
    requires GroupEnabled(s, g) && GroupInv(s)
    ensures GroupInv(GroupApply(s, g))
  {
    var t := GroupApply(s, g);
    if s.groupError.Some? {
      var j :| 0 <= j < |s.lanes| && s.lanes[j].phase == Ended(s.groupError);
      assert t.lanes[j].phase == Ended(t.groupError);
    } else if g.Exit? {
      assert t.lanes[g.lane].phase == Ended(t.groupError);
    }
  }

  lemma {:induction false} GroupKeepsCancel(c: Config, s: State, g: GroupAction)
    requires |s.lanes| == |c.endpoints| && GroupEnabled(s, g) && CancelInv(c, s)
    ensures |GroupApply(s, g).lanes| == |s.lanes| && CancelInv(c, GroupApply(s, g))
  {
    var t := GroupApply(s, g);
    assert forall i | 0 <= i < |s.lanes| ::
        t.lanes[i].taken == s.lanes[i].taken && (StoppedCleanly(t.lanes[i]) == StoppedCleanly(s.lanes[i]));
  }

  lemma {:induction false} GroupKeepsInv(c: Config, s: State, g: GroupAction)
    requires Inv(c, s) && GroupEnabled(s, g)
    ensures Inv(c, GroupApply(s, g))
  {
    GroupKeepsLanes(c, s, g);
    GroupKeepsCursor(s, g);
    GroupKeepsGroup(s, g);
    GroupKeepsCancel(c, s, g);
    FlatFrame(c, s.lanes, GroupApply(s, g).lanes, |s.lanes|);
  }

  // Steps of the reader, one part of the invariant at a time.

  predicate Takes(a: ReaderAction) { a.Receive? || a.DrainReceive? }

  /** The lane the reader receives from. */
  function Source(s: State): nat {
    if s.consumer.Draining? then s.consumer.at else s.cur
  }

  lemma {:induction false} ReaderLanes(s: State, a: ReaderAction)
    requires ReaderEnabled(s, a)
    ensures var t, k := ReaderApply(s, a), Source(s);
            if Takes(a) then
              k < |s.lanes| && s.lanes[k].buf != [] && t.lanes == s.lanes[k := Pop(s.lanes[k])]
            else t.lanes == s.lanes
    ensures var t := ReaderApply(s, a);
            t.closer == s.closer && t.groupError == s.groupError && t.readerError == s.readerError
            && t.parentCancelled == s.parentCancelled && (s.cancelled ==> t.cancelled)
  {
  }

  lemma {:induction false} ReaderKeepsLanes(c: Config, s: State, a: ReaderAction)
    requires |s.lanes| == |c.endpoints| && ReaderEnabled(s, a) && LanesInv(c, s) && ClosesInv(s)
    ensures var t := ReaderApply(s, a); |t.lanes| == |s.lanes| && LanesInv(c, t) && ClosesInv(t)
  {
    ReaderLanes(s, a);
    var t, k := ReaderApply(s, a), Source(s);
    if Takes(a) {
      assert LaneInv(c.endpoints[k], s.lanes[k], c.bufferSize);
      assert LaneInv(c.endpoints[k], Pop(s.lanes[k]), c.bufferSize);
    }
  }

  lemma {:induction false} ReaderKeepsGroup(s: State, a: ReaderAction)
    requires ReaderEnabled(s, a) && GroupInv(s)
    ensures GroupInv(ReaderApply(s, a))
  {
    ReaderLanes(s, a);
    var t := ReaderApply(s, a);
    if s.groupError.Some? {
      var j :| 0 <= j < |s.lanes| && s.lanes[j].phase == Ended(s.groupError);
      assert t.lanes[j].phase == Ended(t.groupError);
    }
  }

  lemma {:induction false} ReaderKeepsCursor(s: State, a: ReaderAction)
    requires ReaderEnabled(s, a) && CursorInv(s)
    ensures CursorInv(ReaderApply(s, a))
    ensures Takes(a) ==> Source(s) == Position(s)
  {
  }

  lemma {:induction false} ReaderKeepsCancel(c: Config, s: State, a: ReaderAction)
    requires |s.lanes| == |c.endpoints| && ReaderEnabled(s, a) && CancelInv(c, s)
    ensures |ReaderApply(s, a).lanes| == |s.lanes| && CancelInv(c, ReaderApply(s, a))
  {
    ReaderLanes(s, a);
    var t := ReaderApply(s, a);
    assert forall i | 0 <= i < |s.lanes| ::
        t.lanes[i].taken == s.lanes[i].taken && t.lanes[i].phase == s.lanes[i].phase;
  }

  lemma {:induction false} TakeKeepsHistory(c: Config, s: State, a: ReaderAction)
    requires |s.lanes| == |c.endpoints| && ReaderEnabled(s, a) && Takes(a)
    requires LanesInv(c, s) && CursorInv(s) && CancelInv(c, s) && HistoryInv(c, s)
    requires var t := ReaderApply(s, a); |t.lanes| == |s.lanes| && LanesInv(c, t)
    ensures HistoryInv(c, ReaderApply(s, a))
  {
    ReaderLanes(s, a);
    ReaderKeepsCursor(s, a);
    var t, k := ReaderApply(s, a), Source(s);
    assert LaneInv(c.endpoints[k], s.lanes[k], c.bufferSize);
    FlatGrows(c, s.lanes, t.lanes, k);
    var was, r := Flat(c, s.lanes, |s.lanes|), s.lanes[k].buf[0];
    assert Flat(c, t.lanes, |t.lanes|) == was + [r];
    assert s.rec.None? && s.released == was;
    assert t.released + Opt(t.rec) == s.released + [r];
  }

  lemma {:induction false} OtherActionsKeepHistory(c: Config, s: State, a: ReaderAction)
    requires |s.lanes| == |c.endpoints| && ReaderEnabled(s, a) && !Takes(a) && LanesInv(c, s) && HistoryInv(c, s)
    ensures ReaderApply(s, a).lanes == s.lanes && HistoryInv(c, ReaderApply(s, a))
  {
    var t := ReaderApply(s, a);
    assert t.released + Opt(t.rec) == s.released + Opt(s.rec);
    assert t.delivered == s.delivered && (LastReferenceGone(s) ==> LastReferenceGone(t));
  }

  lemma {:induction false} ReaderKeepsInv(c: Config, s: State, a: ReaderAction)
    requires Inv(c, s) && ReaderEnabled(s, a)
    ensures Inv(c, ReaderApply(s, a))
  {
    ReaderKeepsLanes(c, s, a);
    ReaderKeepsGroup(s, a);
    ReaderKeepsCursor(s, a);
    ReaderKeepsCancel(c, s, a);
    if Takes(a) { TakeKeepsHistory(c, s, a); } else { OtherActionsKeepHistory(c, s, a); }
  }

  /** Every step of every goroutine, of the group and of the reader keeps the
      invariant. */
  lemma {:induction false} StepKeepsInv(c: Config, s: State, step: Step)
    requires Inv(c, s) && Enabled(c, s, step)
    ensures Inv(c, Apply(c, s, step))
  {
    match step
    case Goroutine(i, m) => GoroutineKeepsInv(c, s, i, m);
    case Group(g) => GroupKeepsInv(c, s, g);
    case Reader(a) => ReaderKeepsInv(c, s, a);
  }

  lemma {:induction false} RunKeepsInv(c: Config, s: State, steps: seq<Step>)
    requires Inv(c, s) && ValidRun(c, s, steps)
    ensures Inv(c, RunFrom(c, s, steps))
    decreases |steps|
  {
    if steps != [] {
      StepKeepsInv(c, s, steps[0]);
      RunKeepsInv(c, Apply(c, s, steps[0]), steps[1..]);
    }
  }

  // ---------------------------------------------------------------------
  // Safety of every run
  // ---------------------------------------------------------------------

  /** In every run the records delivered so far are a prefix of each endpoint's
      records, in endpoint order: complete up to what was sent for endpoints
      already passed, nothing for endpoints not yet reached. */
  lemma {:induction false} DeliveredInEndpointOrder(c: Config, steps: seq<Step>)
    requires ValidConfig(c) && ValidRun(c, Init(c), steps)
    ensures var s := RunFrom(c, Init(c), steps);
            && (forall i | 0 <= i < |s.lanes| :: s.lanes[i].got <= s.lanes[i].taken <= |c.endpoints[i].records|)
            && s.delivered <= Flat(c, s.lanes, |s.lanes|)
            && (s.refCount > 0 ==>
                  && s.delivered == Flat(c, s.lanes, |s.lanes|)
                  && (forall i | 0 <= i < s.cur && i < |s.lanes| :: s.lanes[i].got == s.lanes[i].taken)
                  && (forall i | s.cur < i < |s.lanes| :: s.lanes[i].got == 0))
  {
    InitInv(c);
    RunKeepsInv(c, Init(c), steps);
    var s := RunFrom(c, Init(c), steps);
    forall i | 0 <= i < s.cur && i < |s.lanes| && s.refCount > 0
      ensures s.lanes[i].got == s.lanes[i].taken
    {
      assert LaneInv(c.endpoints[i], s.lanes[i], c.bufferSize);
    }
  }

  /** Once Next has returned false every goroutine has ended and the group's
      error is published.  If that error is nil and the parent did not cancel,
      everything every endpoint had was delivered, in order. */
  lemma {:induction false} NextFalseMeansDone(c: Config, steps: seq<Step>)
    requires ValidConfig(c) && ValidRun(c, Init(c), steps)
    requires RunFrom(c, Init(c), steps).nextResult == Some(false)
    requires RunFrom(c, Init(c), steps).refCount > 0
    ensures var s := RunFrom(c, Init(c), steps);
            && s.closer.Finished?
            && (forall i | 0 <= i < |s.lanes| :: HasEnded(s.lanes[i]))
            && s.readerError == s.groupError
            && (s.readerError.Some? ==> exists i | 0 <= i < |s.lanes| :: s.lanes[i].phase == Ended(s.readerError))
            && (s.readerError.None? && !s.parentCancelled ==>
                  s.delivered == AllRecords(c.endpoints, |c.endpoints|))
  {
    InitInv(c);
    RunKeepsInv(c, Init(c), steps);
    var s := RunFrom(c, Init(c), steps);
    assert s.lanes[|s.lanes| - 1].closes > 0;
    if s.readerError.None? && !s.parentCancelled {
      forall i | 0 <= i < |s.lanes| ensures s.lanes[i].got == |c.endpoints[i].records| {
        assert LaneInv(c.endpoints[i], s.lanes[i], c.bufferSize);
        assert HasEnded(s.lanes[i]);
        assert StoppedCleanly(s.lanes[i]);
      }
      FlatComplete(c, s.lanes, |s.lanes|);
    }
  }

  /** No run closes a channel twice or sends on a closed channel. */
  lemma {:induction false} ChannelsNeverPanic(c: Config, steps: seq<Step>)
    requires ValidConfig(c) && ValidRun(c, Init(c), steps)
    ensures var s := RunFrom(c, Init(c), steps);
            forall i | 0 <= i < |s.lanes| ::
              s.lanes[i].closes <= 1 && (s.lanes[i].phase.Sending? ==> s.lanes[i].closes == 0)
  {
    InitInv(c);
    RunKeepsInv(c, Init(c), steps);
    var s := RunFrom(c, Init(c), steps);
    forall i | 0 <= i < |s.lanes|
      ensures s.lanes[i].closes <= 1 && (s.lanes[i].phase.Sending? ==> s.lanes[i].closes == 0)
    {
      ClosedLanesAreDone(s, i);
    }
  }

  /** What an endpoint's goroutine has retained: the records the consumer took,
      then the ones in the channel, then the one in the goroutine's hand. */
  predicate Accounted(e: Endpoint, l: Lane) {
    && l.got <= l.taken <= |e.records|
    && e.records[..l.taken] == e.records[..l.got] + l.buf + (if l.phase.Sending? then [l.phase.record] else [])
  }

  lemma {:induction false} LaneAccounted(e: Endpoint, l: Lane, bufferSize: nat)
    requires LaneInv(e, l, bufferSize)
    ensures Accounted(e, l)
    ensures l.buf == [] && HasReturned(l) ==> l.got == l.taken
  {
    assert e.records[..l.taken] == e.records[..l.got] + e.records[l.got..Pushed(l)] + e.records[Pushed(l)..l.taken];
  }

  /** Reference conservation.  Every retained record is accounted for once; the
      ones taken are exactly the ones released plus the reader's current record.
      When the last Release is done each retained record has been released
      exactly once, in the order it was sent. */
  lemma {:induction false} ReferencesConserved(c: Config, steps: seq<Step>)
    requires ValidConfig(c) && ValidRun(c, Init(c), steps)
    ensures var s := RunFrom(c, Init(c), steps);
            && (forall i | 0 <= i < |s.lanes| :: Accounted(c.endpoints[i], s.lanes[i]))
            && s.released + Opt(s.rec) == Flat(c, s.lanes, |s.lanes|)
            && (s.consumer.Freed? ==>
                  && s.released == Flat(c, s.lanes, |s.lanes|)
                  && (forall i | 0 <= i < |s.lanes| :: HasReturned(s.lanes[i]) && s.lanes[i].got == s.lanes[i].taken))
  {
    InitInv(c);
    RunKeepsInv(c, Init(c), steps);
    var s := RunFrom(c, Init(c), steps);
    forall i | 0 <= i < |s.lanes|
      ensures Accounted(c.endpoints[i], s.lanes[i])
      ensures s.consumer.Freed? ==> HasReturned(s.lanes[i]) && s.lanes[i].got == s.lanes[i].taken
    {
      LaneAccounted(c.endpoints[i], s.lanes[i], c.bufferSize);
      ClosedLanesAreDone(s, i);
    }
  }
}
