/** How newRecordReader connects goroutines to the reader's channel table. */
module RecordReaderWiring {
  import opened RecordReader
  import opened Wrappers

  /** A goroutine sends the records of `endpoint` to `channel`; `closesOwn` says
      whether it closes that channel itself when it returns. */
  datatype Writer = Writer(endpoint: nat, channel: nat, closesOwn: bool)

  /** `slots[k]` is the channel the reader visits k-th, or nil. */
  datatype Wiring = Wiring(slots: seq<Option<nat>>, writers: seq<Writer>)

  /** The reader visits the endpoints in order, each through a channel of its own,
      and every channel but the last is closed by its goroutine. */
  predicate Faithful(w: Wiring, numEndpoints: nat) {
    && |w.slots| == |w.writers| == numEndpoints
    && (forall i | 0 <= i < numEndpoints ::
          && w.writers[i].endpoint == i
          && w.slots[i] == Some(w.writers[i].channel)
          && w.writers[i].closesOwn == (i != numEndpoints - 1))
    && (forall i, j | 0 <= i < j < numEndpoints :: w.slots[i] != w.slots[j])
  }

  /** Channels are numbered in the order they are made; channel 0 is made before
      the schema is known. */
  function SlotOf(numEndpoints: nat, schemaGiven: bool, k: nat): Option<nat> {
    if schemaGiven || k + 1 < numEndpoints then Some(k + 1) else if k == 0 then Some(0) else None
  }

  function WriterOf(numEndpoints: nat, schemaGiven: bool, k: nat): Writer {
    if schemaGiven then Writer(k, k + 1, k + 1 != numEndpoints)
    else if k == 0 then Writer(0, 0, false)
    else Writer(k, k, k != numEndpoints)
  }

  function WiringOf(numEndpoints: nat, schemaGiven: bool): Wiring {
    Wiring(seq(numEndpoints, k requires 0 <= k < numEndpoints => SlotOf(numEndpoints, schemaGiven, k)),
           seq(numEndpoints, k requires 0 <= k < numEndpoints => WriterOf(numEndpoints, schemaGiven, k)))
  }

  /** The table fits the transition system of RecordReader exactly when the server
      gave a schema or there is one endpoint.  Otherwise every later endpoint sits
      one slot early, the first endpoint's channel is in no slot, and the last slot,
      which the closer closes and the reader waits on, is nil. */
  lemma FaithfulExactly(numEndpoints: nat, schemaGiven: bool)
    requires numEndpoints >= 1
    ensures var w := WiringOf(numEndpoints, schemaGiven);
            && (Faithful(w, numEndpoints) <==> schemaGiven || numEndpoints == 1)
            && (!schemaGiven && numEndpoints > 1 ==>
                  && w.slots[numEndpoints - 1].None?
                  && w.writers[0].endpoint == 0
                  && (forall i | 0 <= i < numEndpoints :: w.slots[i] != Some(w.writers[0].channel))
                  && (forall i | 0 < i < numEndpoints ::
                        w.writers[i].endpoint == i && w.slots[i - 1] == Some(w.writers[i].channel)))
  {
    var w := WiringOf(numEndpoints, schemaGiven);
    assert forall k | 0 <= k < numEndpoints :: w.slots[k] == SlotOf(numEndpoints, schemaGiven, k);
    assert forall k | 0 <= k < numEndpoints :: w.writers[k] == WriterOf(numEndpoints, schemaGiven, k);
    if !schemaGiven && numEndpoints > 1 { assert w.slots[0] != Some(w.writers[0].channel); }
  }

  /** The configurations of the transition system are wired faithfully: lane i is endpoint
      i's goroutine, slot i its channel. */
  lemma {:induction false} ValidConfigIsFaithful(c: Config)
    requires ValidConfig(c)
    ensures Faithful(WiringOf(|c.endpoints|, c.schemaGiven), |c.endpoints|)
  {
    FaithfulExactly(|c.endpoints|, c.schemaGiven);
  }

  // What the reader does on an unfaithful table.

  /** The receives Next can complete on a table, from slot `cur` on: a record leaves the
      reader at its slot, a closed channel moves it on, and a nil channel never answers. */
  predicate Receives(w: Wiring, cur: nat, closed: seq<bool>)
    decreases |closed|
  {
    closed == [] ||
    (cur < |w.slots| && w.slots[cur].Some? && Receives(w, if closed[0] then cur + 1 else cur, closed[1..]))
  }

  function SlotAfter(cur: nat, closed: seq<bool>): nat
    decreases |closed|
  {
    if closed == [] then cur else SlotAfter(if closed[0] then cur + 1 else cur, closed[1..])
  }

  lemma {:induction false} StopsAtNil(w: Wiring, cur: nat, closed: seq<bool>, k: nat)
    requires cur <= k < |w.slots| && w.slots[k].None? && Receives(w, cur, closed)
    ensures SlotAfter(cur, closed) <= k
    decreases |closed|
  {
    if closed != [] { StopsAtNil(w, if closed[0] then cur + 1 else cur, closed[1..], k); }
  }

  /** On the table of a reader without a schema and with several endpoints Next never
      returns false: that takes passing all slots, and the last one is nil.  When the group
      finishes, the closer panics on that slot (see PanicsExactly). */
  lemma {:induction false} UnfaithfulNeverEnds(numEndpoints: nat, closed: seq<bool>)
    requires numEndpoints > 1 && Receives(WiringOf(numEndpoints, false), 0, closed)
    ensures SlotAfter(0, closed) < |WiringOf(numEndpoints, false).slots|
  {
    FaithfulExactly(numEndpoints, false);
    StopsAtNil(WiringOf(numEndpoints, false), 0, closed, numEndpoints - 1);
  }

  /** What the closer does to the last slot once the whole group is done: closing a nil
      channel panics. */
  predicate CloserPanics(w: Wiring) { |w.slots| > 0 && w.slots[|w.slots| - 1].None? }

  /** The closer panics exactly on the unfaithful tables. */
  lemma {:induction false} PanicsExactly(numEndpoints: nat, schemaGiven: bool)
    requires numEndpoints >= 1
    ensures var w := WiringOf(numEndpoints, schemaGiven); CloserPanics(w) <==> !Faithful(w, numEndpoints)
  {
    FaithfulExactly(numEndpoints, schemaGiven);
  }

  method Wire(numEndpoints: nat, schemaGiven: bool) returns (w: Wiring)
    requires numEndpoints >= 1
    ensures w == WiringOf(numEndpoints, schemaGiven)
  {
    var first := 0;             // the channel made before the schema is known
    var made := 1;
    var writers: seq<Writer> := [];
    var endpoints := seq(numEndpoints, i => i);
    if !schemaGiven {
      writers := [Writer(endpoints[0], first, false)];
      endpoints := endpoints[1..];
    }
    var chs := new Option<nat>[numEndpoints](_ => None);
    chs[0] := Some(first);
    var last := numEndpoints - 1;
    for i := 0 to |endpoints|
      invariant made == i + 1 && |writers| == i + (if schemaGiven then 0 else 1)
      invariant forall k | 0 <= k < i :: chs[k] == Some(k + 1)
      invariant forall k | i <= k < numEndpoints :: chs[k] == if k == 0 then Some(first) else None
      invariant forall k | 0 <= k < |writers| :: writers[k] == WriterOf(numEndpoints, schemaGiven, k)
    {
      chs[i] := Some(made);
      writers := writers + [Writer(endpoints[i], made, i != last)];
      made := made + 1;
    }
    w := Wiring(chs[..], writers);
  }
}
