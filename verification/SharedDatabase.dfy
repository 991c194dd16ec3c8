/** The DB-API connections that share one database through a reference count, as a
    transition system over their threads' atomic steps.  Below the count stands the
    low-level database, which knows its registered connections, refuses to be closed while
    there are any, and ignores a second close. */
module SharedDatabase {
  /** Where a Connection object is in its life.  A clone is called on a source, creates the
      AdbcConnection, registers it with the database, and is counted last.  Closing releases
      the AdbcConnection, unregisters it, takes it off the count and, when that leaves zero,
      closes the database: a check for registered connections, then the release. */
  datatype Phase =
    | Called(source: nat)
    | Created(source: nat)
    | Registered(source: nat)
    | Open
    | Unregistering
    | ConnClosed
    | MustClose
    | Closing
    | Finished

  /** `releases` counts calls of AdbcDatabaseRelease. */
  datatype State = State(conns: seq<Phase>, refcount: int, children: int, releases: nat)

  /** connect(): one connection, registered and counted. */
  const CONNECTED := State([Open], 1, 1, 0)

  datatype Step =
    | Clone(source: nat) | Create(conn: nat) | Register(conn: nat) | Inc(conn: nat)
    | CloseConn(conn: nat) | Unregister(conn: nat) | Dec(conn: nat) | Check(conn: nat) | Release(conn: nat)

  predicate At(s: State, i: nat, p: Phase) { i < |s.conns| && s.conns[i] == p }

  /** What the code lets happen: only an open connection is cloned, and each connection is
      closed once. */
  predicate Enabled(s: State, step: Step) {
    match step
    case Clone(i) => At(s, i, Open)
    case Create(i) => i < |s.conns| && s.conns[i].Called?
    case Register(i) => i < |s.conns| && s.conns[i].Created?
    case Inc(i) => i < |s.conns| && s.conns[i].Registered?
    case CloseConn(i) => At(s, i, Open)
    case Unregister(i) => At(s, i, Unregistering)
    case Dec(i) => At(s, i, ConnClosed)
    case Check(i) => At(s, i, MustClose)
    case Release(i) => At(s, i, Closing)
  }

  /** Connecting to a released database fails, and the clone with it; the check raises while
      a connection is registered; a second release does nothing. */
  function Apply(s: State, step: Step): State
    requires Enabled(s, step)
  {
    match step
    case Clone(i) => s.(conns := s.conns + [Called(i)])
    case Create(i) => s.(conns := s.conns[i := if s.releases > 0 then Finished else Created(s.conns[i].source)])
    case Register(i) => s.(conns := s.conns[i := Registered(s.conns[i].source)], children := s.children + 1)
    case Inc(i) => s.(conns := s.conns[i := Open], refcount := s.refcount + 1)
    case CloseConn(i) => s.(conns := s.conns[i := Unregistering])
    case Unregister(i) => s.(conns := s.conns[i := ConnClosed], children := s.children - 1)
    case Dec(i) =>
      s.(conns := s.conns[i := if s.refcount == 1 then MustClose else Finished], refcount := s.refcount - 1)
    case Check(i) => s.(conns := s.conns[i := if s.children != 0 then Finished else Closing])
    case Release(i) =>
      s.(conns := s.conns[i := Finished], releases := if s.releases == 0 then 1 else s.releases)
  }

  predicate Run(s: State, steps: seq<Step>)
    decreases |steps|
  {
    steps == [] || (Enabled(s, steps[0]) && Run(Apply(s, steps[0]), steps[1..]))
  }

  function After(s: State, steps: seq<Step>): State
    requires Run(s, steps)
    decreases |steps|
  {
    if steps == [] then s else After(Apply(s, steps[0]), steps[1..])
  }

  // ---------------------------------------------------------------------
  // Counting
  // ---------------------------------------------------------------------

  datatype Kind = COUNTED | CHILD

  predicate Is(kind: Kind, p: Phase) {
    match kind
    case COUNTED => p.Open? || p.Unregistering? || p.ConnClosed?
    case CHILD => p.Registered? || p.Open? || p.Unregistering?
  }

  function Weight(kind: Kind, p: Phase): nat { if Is(kind, p) then 1 else 0 }

  function Tally(kind: Kind, conns: seq<Phase>): nat {
    if conns == [] then 0 else Tally(kind, conns[..|conns| - 1]) + Weight(kind, conns[|conns| - 1])
  }

  lemma {:induction false} TallyUpdate(kind: Kind, conns: seq<Phase>, i: nat, p: Phase)
    requires i < |conns|
    ensures Tally(kind, conns[i := p]) == Tally(kind, conns) - Weight(kind, conns[i]) + Weight(kind, p)
  {
    var n := |conns| - 1;
    if i < n {
      TallyUpdate(kind, conns[..n], i, p);
      assert conns[i := p][..n] == conns[..n][i := p];
    } else {
      assert conns[i := p][..n] == conns[..n];
    }
  }

  lemma TallyAppend(kind: Kind, conns: seq<Phase>, p: Phase)
    ensures Tally(kind, conns + [p]) == Tally(kind, conns) + Weight(kind, p)
  {
    assert (conns + [p])[..|conns|] == conns;
  }

  /** There is one of the kind exactly when the tally is positive. */
  lemma {:induction false} TallyPositive(kind: Kind, conns: seq<Phase>)
    ensures Tally(kind, conns) > 0 <==> exists k | 0 <= k < |conns| :: Is(kind, conns[k])
  {
    if conns != [] {
      var n := |conns| - 1;
      TallyPositive(kind, conns[..n]);
      if k :| 0 <= k < n && Is(kind, conns[..n][k]) { assert Is(kind, conns[k]); }
      if k :| 0 <= k < n && Is(kind, conns[k]) { assert Is(kind, conns[..n][k]); }
    }
  }

  /** Both counters are exact. */
  ghost predicate Books(s: State) {
    s.refcount == Tally(COUNTED, s.conns) && s.children == Tally(CHILD, s.conns)
  }

  function Moved(s: State, step: Step): Phase
    requires Enabled(s, step) && !step.Clone?
  {
    Apply(s, step).conns[step.conn]
  }

  lemma {:induction false} StepKeepsBooks(s: State, step: Step)
    requires Books(s) && Enabled(s, step)
    ensures Books(Apply(s, step))
  {
    if step.Clone? {
      TallyAppend(COUNTED, s.conns, Called(step.source));
      TallyAppend(CHILD, s.conns, Called(step.source));
    } else {
      TallyUpdate(COUNTED, s.conns, step.conn, Moved(s, step));
      TallyUpdate(CHILD, s.conns, step.conn, Moved(s, step));
    }
  }

  /** In every interleaving the reference count is the number of connections counted and not
      yet discounted, and the database knows exactly the registered connections; so closing a
      child never underflows. */
  lemma {:induction false} CountersExact(s: State, steps: seq<Step>)
    requires Books(s) && Run(s, steps)
    ensures Books(After(s, steps))
    decreases |steps|
  {
    if steps != [] {
      StepKeepsBooks(s, steps[0]);
      CountersExact(Apply(s, steps[0]), steps[1..]);
    }
  }

  lemma {:induction false} ConnectedIsBooked()
    ensures Books(CONNECTED)
  {
    assert CONNECTED.conns[..0] == [];
  }

  // ---------------------------------------------------------------------
  // One release, whatever happens
  // ---------------------------------------------------------------------

  /** A connection that has been created and is not done. */
  predicate Lively(p: Phase) { !p.Called? && !p.Finished? }

  /** As long as the database is not released, someone is left who will see to it. */
  ghost predicate Owed(s: State) {
    && Books(s) && s.releases <= 1
    && (s.releases == 0 ==> exists k | 0 <= k < |s.conns| :: Lively(s.conns[k]))
  }

  lemma {:induction false} StepKeepsOwed(s: State, step: Step)
    requires Owed(s) && Enabled(s, step)
    ensures Owed(Apply(s, step))
  {
    StepKeepsBooks(s, step);
    var t := Apply(s, step);
    if t.releases == 0 {
      var k :| 0 <= k < |s.conns| && Lively(s.conns[k]);
      TallyPositive(COUNTED, t.conns);
      TallyPositive(CHILD, t.conns);
      if step.Clone? || k != step.conn { assert Lively(t.conns[k]); }
      else if step.Dec? && s.refcount != 1 { assert t.refcount > 0; }
      else if step.Check? && s.children != 0 { assert t.children > 0; }
      else { assert Lively(t.conns[k]); }
    }
  }

  lemma {:induction false} RunKeepsOwed(s: State, steps: seq<Step>)
    requires Owed(s) && Run(s, steps)
    ensures Owed(After(s, steps))
    decreases |steps|
  {
    if steps != [] {
      StepKeepsOwed(s, steps[0]);
      RunKeepsOwed(Apply(s, steps[0]), steps[1..]);
    }
  }

  predicate AllDone(s: State) { forall k | 0 <= k < |s.conns| :: s.conns[k].Finished? }

  /** In every interleaving the database is released at most once, and exactly once by the
      time every connection is done. */
  lemma {:induction false} ReleasedOnce(steps: seq<Step>)
    requires Run(CONNECTED, steps)
    ensures var t := After(CONNECTED, steps); t.releases <= 1 && (AllDone(t) ==> t.releases == 1)
  {
    ConnectedIsBooked();
    assert Lively(CONNECTED.conns[0]);
    RunKeepsOwed(CONNECTED, steps);
  }

  // ---------------------------------------------------------------------
  // No live connection on a released database
  // ---------------------------------------------------------------------

  /** The AdbcConnection exists. */
  predicate Live(p: Phase) { p.Created? || p.Registered? || p.Open? }

  predicate AnyLive(s: State) { exists k | 0 <= k < |s.conns| :: Live(s.conns[k]) }

  predicate Safe(s: State) { s.releases > 0 ==> !AnyLive(s) }

  predicate AlwaysSafe(s: State, steps: seq<Step>)
    requires Run(s, steps)
    decreases |steps|
  {
    Safe(s) && (steps == [] || AlwaysSafe(Apply(s, steps[0]), steps[1..]))
  }

  /** The database is released under a live connection. */
  predicate ReleasesUnder(s: State, step: Step) { step.Release? && s.releases == 0 && AnyLive(s) }

  predicate NeverReleasesUnder(s: State, steps: seq<Step>)
    requires Run(s, steps)
    decreases |steps|
  {
    steps == [] || (!ReleasesUnder(s, steps[0]) && NeverReleasesUnder(Apply(s, steps[0]), steps[1..]))
  }

  lemma {:induction false} StepSafeExactly(s: State, step: Step)
    requires Safe(s) && Enabled(s, step)
    ensures Safe(Apply(s, step)) <==> !ReleasesUnder(s, step)
  {
    var t := Apply(s, step);
    if s.releases > 0 {
      forall k | 0 <= k < |t.conns| ensures !Live(t.conns[k]) {
        assert k < |s.conns| ==> !Live(s.conns[k]);
        assert forall i | 0 <= i < |s.conns| :: !Live(s.conns[i]);
      }
    } else if ReleasesUnder(s, step) {
      var k :| 0 <= k < |s.conns| && Live(s.conns[k]);
      assert Live(t.conns[k]);
    }
  }

  /** Only the moment of the release matters: connections cannot come to life on a released
      database. */
  lemma {:induction false} SafeExactly(s: State, steps: seq<Step>)
    requires Safe(s) && Run(s, steps)
    ensures AlwaysSafe(s, steps) <==> NeverReleasesUnder(s, steps)
    decreases |steps|
  {
    if steps != [] {
      StepSafeExactly(s, steps[0]);
      if Safe(Apply(s, steps[0])) { SafeExactly(Apply(s, steps[0]), steps[1..]); }
    }
  }

  /** A clone on its way to being registered. */
  predicate InFlight(p: Phase) { p.Called? || p.Created? }

  predicate CloneInFlight(s: State) { exists k | 0 <= k < |s.conns| :: InFlight(s.conns[k]) }

  /** The check of a close that can still release the database passes. */
  predicate Passes(s: State, step: Step) { step.Check? && s.children == 0 && s.releases == 0 }

  /** No such check passes while a clone is in flight. */
  predicate WindowFree(s: State, steps: seq<Step>)
    requires Run(s, steps)
    decreases |steps|
  {
    steps == [] || (!(Passes(s, steps[0]) && CloneInFlight(s)) && WindowFree(Apply(s, steps[0]), steps[1..]))
  }

  /** Past the last AdbcConnection: nothing is left but to count down and close. */
  predicate Settled(p: Phase) { p.ConnClosed? || p.MustClose? || p.Closing? || p.Finished? }

  predicate AllSettled(s: State) { forall k | 0 <= k < |s.conns| :: Settled(s.conns[k]) }

  predicate Committed(s: State) { s.releases > 0 || exists k | 0 <= k < |s.conns| :: s.conns[k].Closing? }

  /** Once a check has passed every connection is settled. */
  ghost predicate Quiet(s: State) { Books(s) && (Committed(s) ==> AllSettled(s)) }

  lemma {:induction false} StepKeepsSettled(s: State, step: Step)
    requires AllSettled(s) && Enabled(s, step)
    ensures AllSettled(Apply(s, step))
  {
  }

  lemma {:induction false} PassedCheckSettles(s: State, i: nat)
    requires Books(s) && Enabled(s, Check(i)) && s.children == 0 && !CloneInFlight(s)
    ensures AllSettled(Apply(s, Check(i)))
  {
    TallyPositive(CHILD, s.conns);
    var t := Apply(s, Check(i));
    forall k | 0 <= k < |t.conns| ensures Settled(t.conns[k]) {
      assert !Is(CHILD, s.conns[k]) && !InFlight(s.conns[k]);
    }
  }

  lemma {:induction false} StepKeepsQuiet(s: State, step: Step)
    requires Quiet(s) && Enabled(s, step) && !(Passes(s, step) && CloneInFlight(s))
    ensures Quiet(Apply(s, step))
  {
    StepKeepsBooks(s, step);
    var t := Apply(s, step);
    if Committed(s) { StepKeepsSettled(s, step); }
    else if Passes(s, step) { PassedCheckSettles(s, step.conn); }
  }

  lemma {:induction false} QuietIsSafe(s: State)
    requires Quiet(s)
    ensures Safe(s)
  {
    if s.releases > 0 {
      forall k | 0 <= k < |s.conns| ensures !Live(s.conns[k]) { assert Settled(s.conns[k]); }
    }
  }

  lemma {:induction false} RunStaysSafe(s: State, steps: seq<Step>)
    requires Quiet(s) && Run(s, steps) && WindowFree(s, steps)
    ensures AlwaysSafe(s, steps)
    decreases |steps|
  {
    QuietIsSafe(s);
    if steps != [] {
      StepKeepsQuiet(s, steps[0]);
      RunStaysSafe(Apply(s, steps[0]), steps[1..]);
    }
  }

  /** A released database has no live connection, in every interleaving in which no closing
      check passes while a clone is in flight. */
  lemma {:induction false} ReleasedLast(steps: seq<Step>)
    requires Run(CONNECTED, steps) && WindowFree(CONNECTED, steps)
    ensures AlwaysSafe(CONNECTED, steps)
  {
    ConnectedIsBooked();
    RunStaysSafe(CONNECTED, steps);
  }

  /** The condition is exact at the check: once a check has passed, all that can follow is
      safe if and only if no clone was in flight. */
  lemma {:induction false} PassedCheckExactly(s: State, i: nat)
    requires Books(s) && Enabled(s, Check(i)) && Passes(s, Check(i))
    ensures (forall steps: seq<Step> | Run(Apply(s, Check(i)), steps) :: AlwaysSafe(Apply(s, Check(i)), steps))
            <==> !CloneInFlight(s)
  {
    var t := Apply(s, Check(i));
    StepKeepsBooks(s, Check(i));
    if !CloneInFlight(s) {
      PassedCheckSettles(s, i);
      forall steps: seq<Step> | Run(t, steps) ensures AlwaysSafe(t, steps) { SettledStaysSafe(t, steps); }
    } else {
      var k :| 0 <= k < |s.conns| && InFlight(s.conns[k]);
      var steps := if s.conns[k].Created? then [Release(i)] else [Create(k), Release(i)];
      ReleasedUnder(t, i, k);
      assert Run(t, steps) && !AlwaysSafe(t, steps);
    }
  }

  lemma {:induction false} SettledStaysSafe(s: State, steps: seq<Step>)
    requires AllSettled(s) && Run(s, steps)
    ensures AlwaysSafe(s, steps)
    decreases |steps|
  {
    if steps != [] {
      StepKeepsSettled(s, steps[0]);
      SettledStaysSafe(Apply(s, steps[0]), steps[1..]);
    }
  }

  /** A clone in flight can be overtaken by the release. */
  lemma {:induction false} ReleasedUnder(s: State, i: nat, k: nat)
    requires At(s, i, Closing) && s.releases == 0 && k < |s.conns| && InFlight(s.conns[k])
    ensures var steps := if s.conns[k].Created? then [Release(i)] else [Create(k), Release(i)];
            Run(s, steps) && !AlwaysSafe(s, steps)
  {
    var s1 := if s.conns[k].Created? then s else Apply(s, Create(k));
    var s2 := Apply(s1, Release(i));
    assert Live(s2.conns[k]) && s2.releases == 1;
    assert [Release(i)][1..] == [];
    assert Run(s2, []) && !AlwaysSafe(s2, []);
    assert Run(s1, [Release(i)]) && !AlwaysSafe(s1, [Release(i)]);
    if s.conns[k].Called? { assert [Create(k), Release(i)][1..] == [Release(i)]; }
  }

  // ---------------------------------------------------------------------
  // Sources that stay open
  // ---------------------------------------------------------------------

  /** No connection is closed while it is being cloned. */
  predicate Careful(s: State, step: Step) {
    step.CloseConn? ==>
      forall k | 0 <= k < |s.conns| && InFlight(s.conns[k]) :: s.conns[k].source != step.conn
  }

  predicate CarefulRun(s: State, steps: seq<Step>)
    decreases |steps|
  {
    steps == [] || (Enabled(s, steps[0]) && Careful(s, steps[0]) && CarefulRun(Apply(s, steps[0]), steps[1..]))
  }

  ghost predicate SourcesOpen(s: State) {
    forall k | 0 <= k < |s.conns| && InFlight(s.conns[k]) :: At(s, s.conns[k].source, Open)
  }

  lemma {:induction false} SourcesStayOpen(s: State, step: Step)
    requires SourcesOpen(s) && Enabled(s, step) && Careful(s, step)
    ensures SourcesOpen(Apply(s, step))
  {
    var t := Apply(s, step);
    forall k | 0 <= k < |t.conns| && InFlight(t.conns[k]) ensures At(t, t.conns[k].source, Open) {
      if k < |s.conns| { assert InFlight(s.conns[k]) && s.conns[k].source == t.conns[k].source; }
    }
  }

  /** A clone in flight has an open source, which makes the check raise. */
  lemma {:induction false} CarefulIsWindowFree(s: State, steps: seq<Step>)
    requires SourcesOpen(s) && Books(s) && CarefulRun(s, steps)
    ensures Run(s, steps) && WindowFree(s, steps)
    decreases |steps|
  {
    if steps != [] {
      SourcesStayOpen(s, steps[0]);
      StepKeepsBooks(s, steps[0]);
      CarefulIsWindowFree(Apply(s, steps[0]), steps[1..]);
      if CloneInFlight(s) {
        var k :| 0 <= k < |s.conns| && InFlight(s.conns[k]);
        assert Is(CHILD, s.conns[s.conns[k].source]);
        TallyPositive(CHILD, s.conns);
      }
    }
  }

  /** If no connection is closed while it is being cloned, the database is released once, and
      only after every AdbcConnection. */
  lemma {:induction false} DatabaseOutlivesConnections(steps: seq<Step>)
    requires CarefulRun(CONNECTED, steps)
    ensures Run(CONNECTED, steps) && AlwaysSafe(CONNECTED, steps)
    ensures AllDone(After(CONNECTED, steps)) ==> After(CONNECTED, steps).releases == 1
  {
    ConnectedIsBooked();
    CarefulIsWindowFree(CONNECTED, steps);
    ReleasedLast(steps);
    ReleasedOnce(steps);
  }

  // ---------------------------------------------------------------------
  // Closing without an error
  // ---------------------------------------------------------------------

  /** The check refuses to close the database. */
  predicate Raises(s: State, step: Step) { step.Check? && s.children != 0 }

  predicate NeverRaises(s: State, steps: seq<Step>)
    requires Run(s, steps)
    decreases |steps|
  {
    steps == [] || (!Raises(s, steps[0]) && NeverRaises(Apply(s, steps[0]), steps[1..]))
  }

  /** A clone that is not counted yet. */
  predicate Pending(p: Phase) { p.Called? || p.Created? || p.Registered? }

  /** No connection is closed before its clones are finished. */
  predicate Patient(s: State, step: Step) {
    step.CloseConn? ==> forall k | 0 <= k < |s.conns| && Pending(s.conns[k]) :: s.conns[k].source != step.conn
  }

  predicate PatientRun(s: State, steps: seq<Step>)
    decreases |steps|
  {
    steps == [] || (Enabled(s, steps[0]) && Patient(s, steps[0]) && PatientRun(Apply(s, steps[0]), steps[1..]))
  }

  predicate Last(p: Phase) { p.MustClose? || p.Closing? || p.Finished? }

  /** Pending clones have open sources, and whoever is to close the database is the last. */
  ghost predicate Orderly(s: State) {
    && Books(s)
    && (forall k | 0 <= k < |s.conns| && Pending(s.conns[k]) :: At(s, s.conns[k].source, Open))
    && ((exists k | 0 <= k < |s.conns| :: s.conns[k].MustClose?) ==> forall k | 0 <= k < |s.conns| :: Last(s.conns[k]))
  }

  lemma {:induction false} CountedOut(s: State)
    requires Books(s) && s.refcount == 0
    requires forall k | 0 <= k < |s.conns| && Pending(s.conns[k]) :: At(s, s.conns[k].source, Open)
    ensures forall k | 0 <= k < |s.conns| :: Last(s.conns[k])
  {
    TallyPositive(COUNTED, s.conns);
    forall k | 0 <= k < |s.conns| ensures Last(s.conns[k]) {
      assert !Is(COUNTED, s.conns[k]);
      if Pending(s.conns[k]) { assert Is(COUNTED, s.conns[s.conns[k].source]); }
    }
  }

  lemma {:induction false} StepKeepsOrder(s: State, step: Step)
    requires Orderly(s) && Enabled(s, step) && Patient(s, step)
    ensures Orderly(Apply(s, step)) && !Raises(s, step)
  {
    StepKeepsBooks(s, step);
    var t := Apply(s, step);
    forall k | 0 <= k < |t.conns| && Pending(t.conns[k]) ensures At(t, t.conns[k].source, Open) {
      if k < |s.conns| { assert Pending(s.conns[k]) && s.conns[k].source == t.conns[k].source; }
    }
    if step.Dec? && t.refcount == 0 { CountedOut(t); }
    if step.Check? {
      TallyPositive(CHILD, s.conns);
      assert s.conns[step.conn].MustClose?;
    }
  }

  lemma {:induction false} OrderlyNeverRaises(s: State, steps: seq<Step>)
    requires Orderly(s) && PatientRun(s, steps)
    ensures Run(s, steps) && NeverRaises(s, steps)
    decreases |steps|
  {
    if steps != [] {
      StepKeepsOrder(s, steps[0]);
      OrderlyNeverRaises(Apply(s, steps[0]), steps[1..]);
    }
  }

  /** If no connection is closed before its clones are finished, closing never raises. */
  lemma {:induction false} ClosingNeverRaises(steps: seq<Step>)
    requires PatientRun(CONNECTED, steps)
    ensures Run(CONNECTED, steps) && NeverRaises(CONNECTED, steps)
  {
    ConnectedIsBooked();
    OrderlyNeverRaises(CONNECTED, steps);
  }

  /** Closing the source between the registration of the clone's connection and its being
      counted raises, although nobody did anything wrong. */
  lemma {:induction false} ClosingTheSourceRaises()
    ensures var steps := [Clone(0), Create(1), Register(1), CloseConn(0), Unregister(0), Dec(0)];
            && Run(CONNECTED, steps)
            && After(CONNECTED, steps) == State([MustClose, Registered(0)], 0, 1, 0)
            && Enabled(After(CONNECTED, steps), Check(0)) && Raises(After(CONNECTED, steps), Check(0))
  {
    var steps := [Clone(0), Create(1), Register(1), CloseConn(0), Unregister(0), Dec(0)];
    var s1 := Apply(CONNECTED, Clone(0));
    var s2 := Apply(s1, Create(1));
    var s3 := Apply(s2, Register(1));
    var s4 := Apply(s3, CloseConn(0));
    var s5 := Apply(s4, Unregister(0));
    var s6 := Apply(s5, Dec(0));
    assert s6 == State([MustClose, Registered(0)], 0, 1, 0);
    Unroll(CONNECTED, steps, [s1, s2, s3, s4, s5, s6]);
  }

  /** Closing the source between the creation of the clone's connection and its registration
      releases the database under that connection. */
  lemma {:induction false} ClosingTheSourceReleasesEarly()
    ensures var steps := [Clone(0), Create(1), CloseConn(0), Unregister(0), Dec(0), Check(0), Release(0)];
            && Run(CONNECTED, steps)
            && After(CONNECTED, steps) == State([Finished, Created(0)], 0, 0, 1)
            && !Safe(After(CONNECTED, steps))
  {
    var s1 := Apply(CONNECTED, Clone(0));
    var s2 := Apply(s1, Create(1));
    var s3 := Apply(s2, CloseConn(0));
    var s4 := Apply(s3, Unregister(0));
    var s5 := Apply(s4, Dec(0));
    var s6 := Apply(s5, Check(0));
    var s7 := Apply(s6, Release(0));
    assert s7 == State([Finished, Created(0)], 0, 0, 1) && Live(s7.conns[1]);
    Unroll(CONNECTED, [Clone(0), Create(1), CloseConn(0), Unregister(0), Dec(0), Check(0), Release(0)],
           [s1, s2, s3, s4, s5, s6, s7]);
  }

  /** A run given with its states. */
  lemma {:induction false} Unroll(s: State, steps: seq<Step>, states: seq<State>)
    requires |steps| == |states| > 0
    requires Enabled(s, steps[0]) && states[0] == Apply(s, steps[0])
    requires forall k | 0 <= k < |steps| - 1 ::
               Enabled(states[k], steps[k + 1]) && states[k + 1] == Apply(states[k], steps[k + 1])
    ensures Run(s, steps) && After(s, steps) == states[|states| - 1]
    decreases |steps|
  {
    if |steps| > 1 { Unroll(states[0], steps[1..], states[1..]); }
  }
}
