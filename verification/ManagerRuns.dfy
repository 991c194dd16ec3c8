/** Whole runs of calls on any number of databases and connections. */
module ManagerRuns {
  import opened DriverManager
  import opened ManagerBalance
  import opened ManagerSession
  import opened Ownership
  import opened Wrappers

  /** A call on database or connection number i. */
  datatype Call =
    | DbNew(i: nat)
    | DbSetOption(i: nat, key: string, value: string, takes: bool)
    | DbSetInitFunc(i: nat)
    | DbInit(i: nat, b: Behaviour)
    | DbRelease(i: nat, ok: bool)
    | CnNew(i: nat)
    | CnSetOption(i: nat, key: string, value: string, takes: bool)
    | CnInit(i: nat, db: nat, b: Behaviour)
    | CnRelease(i: nat, ok: bool, clears: bool)

  predicate ForDatabase(call: Call) {
    call.DbNew? || call.DbSetOption? || call.DbSetInitFunc? || call.DbInit? || call.DbRelease?
  }

  /** The writes a handle has seen since its New. */
  function WritesAfter(call: Call, writes: Writes): Writes {
    match call
    case DbNew(_) => []
    case CnNew(_) => []
    case DbSetOption(_, key, value, _) => writes + [Wrote(key, value)]
    case CnSetOption(_, key, value, _) => writes + [Wrote(key, value)]
    case DbSetInitFunc(_) => writes + [Hooked]
    case _ => writes
  }

  predicate IsInit(call: Call) { call.DbInit? || call.CnInit? }

  /** What a handle keeps is what was written to it since New. */
  predicate Remembers(owner: Owner, temps: map<nat, Temp>, f: Face, writes: Writes) {
    f.data.TempPointer? ==> f.data.id in temps && temps[f.data.id] == Written(owner, writes)
  }

  function OwnerOf(k: nat, dbs: nat): Owner { if k < dbs then OfDatabase else OfConnection }

  predicate AllRemember(temps: map<nat, Temp>, faces: seq<Face>, writes: seq<Writes>, dbs: nat) {
    |writes| == |faces| && forall k | 0 <= k < |faces| :: Remembers(OwnerOf(k, dbs), temps, faces[k], writes[k])
  }

  /** An operation that leaves the options of the other handles alone. */
  predicate OthersKept(h: Holding, temps: map<nat, Temp>, after: map<nat, Temp>, k: nat)
    requires k < |h.faces|
  {
    forall id | id in temps && !Holds(h.faces[k], id) :: id in after && after[id] == temps[id]
  }

  lemma {:induction false} StillRemember(
    h: Holding, temps: map<nat, Temp>, after: map<nat, Temp>, writes: seq<Writes>, k: nat, f: Face, ws: Writes)
    requires FacesApart(h) && k < |h.faces| && AllRemember(temps, h.faces, writes, h.dbs)
    requires OthersKept(h, temps, after, k) && Remembers(OwnerOf(k, h.dbs), after, f, ws)
    ensures AllRemember(after, h.faces[k := f], writes[k := ws], h.dbs)
  {
    hide Written;
    forall i | 0 <= i < |h.faces| && i != k ensures Remembers(OwnerOf(i, h.dbs), after, h.faces[i], writes[i]) {
      assert Remembers(OwnerOf(i, h.dbs), temps, h.faces[i], writes[i]);
      if i < k { assert Apart(h, i, k); } else { assert Apart(h, k, i); }
    }
  }

  class Session {
    const w: World
    const dbs: seq<Database>
    const cns: seq<Connection>
    ghost var writes: seq<Writes>
    ghost var handshakes: seq<Handshake>

    /** The handles, all zeroed, of an application. */
    constructor (w: World, dbs: seq<Database>, cns: seq<Connection>)
      requires w.Valid() && w.temps == map[] && w.tables == map[] && w.states == {} && Even(w.log)
      requires forall i | 0 <= i < |dbs| :: dbs[i].w == w && dbs[i].privateData == Null && dbs[i].privateDriver == None
      requires forall j | 0 <= j < |cns| :: cns[j].w == w && cns[j].privateData == Null && cns[j].privateDriver == None
      requires forall i, j | 0 <= i < j < |dbs| :: dbs[i] != dbs[j]
      requires forall i, j | 0 <= i < j < |cns| :: cns[i] != cns[j]
      ensures Valid() && this.w == w && this.dbs == dbs && this.cns == cns && handshakes == []
    {
      this.w, this.dbs, this.cns := w, dbs, cns;
      writes, handshakes := seq(|dbs| + |cns|, _ => []), [];
      new;
      hide Balanced, Even;
      EvenExactly(w.log, Now());
    }

    ghost function DbFace(i: nat): Face
      requires i < |dbs|
      reads dbs
    {
      Face(dbs[i].privateData, dbs[i].privateDriver)
    }

    ghost function CnFace(j: nat): Face
      requires j < |cns|
      reads cns
    {
      Face(cns[j].privateData, cns[j].privateDriver)
    }

    ghost function Faces(): (fs: seq<Face>)
      reads dbs, cns
      ensures |fs| == |dbs| + |cns|
    {
      DbFaces() + CnFaces()
    }

    ghost function Now(): Holding
      reads w, dbs, cns
    {
      Holding(w.temps.Keys, w.tables, w.states, Faces(), |dbs|)
    }

    /** The handles are different objects over one heap. */
    ghost predicate Wired()
      reads this, dbs, cns
    {
      && |writes| == |dbs| + |cns|
      && (forall i | 0 <= i < |dbs| :: dbs[i].w == w)
      && (forall j | 0 <= j < |cns| :: cns[j].w == w)
      && (forall i, j | 0 <= i < j < |dbs| :: dbs[i] != dbs[j])
      && (forall i, j | 0 <= i < j < |cns| :: cns[i] != cns[j])
    }

    ghost predicate Greeted()
      reads this, w
    {
      forall k | 0 <= k < |handshakes| :: Happened(w.log, handshakes[k])
    }

    ghost predicate Valid()
      reads this, w, dbs, cns
    {
      && w.Valid() && Wired() && Sound(Now()) && Greeted() && AllRemember(w.temps, Faces(), writes, |dbs|)
      && Balanced(w.log, w.tables.Keys, Faces(), |dbs|)
    }

    /** The calls an application may make: New on a zeroed handle, options on a live one,
        Init before a driver is attached, a database released after its connections; and
        drivers whose New succeeds and whose ConnectionRelease clears private_data. */
    predicate Legal(call: Call)
      reads dbs, cns
    {
      match call
      case DbNew(i) => i < |dbs| && dbs[i].privateData == Null && dbs[i].privateDriver == None
      case DbSetOption(i, _, _, _) => i < |dbs| && (dbs[i].privateData != Null || dbs[i].privateDriver.Some?)
      case DbSetInitFunc(i) => i < |dbs| && (dbs[i].privateData != Null || dbs[i].privateDriver.Some?)
      case DbInit(i, b) => i < |dbs| && dbs[i].privateDriver == None && b.newOk
      case DbRelease(i, _) =>
        && i < |dbs|
        && forall j | 0 <= j < |cns| && cns[j].privateDriver.Some? :: cns[j].privateDriver != dbs[i].privateDriver
      case CnNew(j) => j < |cns| && cns[j].privateData == Null && cns[j].privateDriver == None
      case CnSetOption(j, _, _, _) => j < |cns|
      case CnInit(j, i, b) => j < |cns| && i < |dbs| && cns[j].privateDriver == None && b.newOk
      case CnRelease(j, _, clears) => j < |cns| && clears
    }

    lemma StillGreeted(log: seq<Event>)
      requires log <= w.log && forall k | 0 <= k < |handshakes| :: Happened(log, handshakes[k])
      ensures Greeted()
    {
      hide Happened;
      forall k | 0 <= k < |handshakes| ensures Happened(w.log, handshakes[k]) {
        HappenedLater(log, w.log, handshakes[k]);
      }
    }

    /** The faces of one kind. */
    ghost function DbFaces(): (fs: seq<Face>)
      reads dbs
      ensures |fs| == |dbs|
    {
      seq(|dbs|, i requires 0 <= i < |dbs| reads dbs => DbFace(i))
    }

    ghost function CnFaces(): (fs: seq<Face>)
      reads cns
      ensures |fs| == |cns|
    {
      seq(|cns|, j requires 0 <= j < |cns| reads cns => CnFace(j))
    }

    /** The faces before and after an operation on one handle. */
    lemma DbOnly(before: seq<Face>, i: nat)
      requires |before| == |dbs| + |cns|
      requires i < |dbs| && DbFaces() == before[..|dbs|][i := DbFace(i)] && CnFaces() == before[|dbs|..]
      ensures Faces() == before[i := DbFace(i)]
    {
    }

    lemma CnOnly(before: seq<Face>, j: nat)
      requires |before| == |dbs| + |cns|
      requires j < |cns| && DbFaces() == before[..|dbs|] && CnFaces() == before[|dbs|..][j := CnFace(j)]
      ensures Faces() == before[|dbs| + j := CnFace(j)]
    {
    }

    /** After an operation on handle k: what was remembered and greeted still is. */
    ghost method Settle(h: Holding, temps: map<nat, Temp>, log: seq<Event>, k: nat, f: Face, ws: Writes)
      requires w.Valid() && Wired() && Sound(Now()) && k < |h.faces| && Faces() == h.faces[k := f] && h.dbs == |dbs|
      requires FacesApart(h) && AllRemember(temps, h.faces, writes, h.dbs)
      requires OthersKept(h, temps, w.temps, k) && Remembers(OwnerOf(k, h.dbs), w.temps, f, ws)
      requires log <= w.log && forall m | 0 <= m < |handshakes| :: Happened(log, handshakes[m])
      requires Balanced(w.log, w.tables.Keys, Faces(), |dbs|)
      modifies this`writes
      ensures Valid() && writes == old(writes)[k := ws]
    {
      hide Sound, FacesApart, OthersKept, Remembers, Written, Happened, Balanced, TempsCounted, TablesCounted,
          StatesCounted, CallbacksCounted;
      StillGreeted(log);
      StillRemember(h, temps, w.temps, writes, k, f, ws);
      writes := writes[k := ws];
    }

    method NewDatabase(i: nat) returns (status: Status)
      requires Valid() && Legal(DbNew(i))
      modifies this`writes, w, dbs[i]
      ensures Valid() && status == OK && w.log == old(w.log) && writes == old(writes)[i := []]
    {
      hide Sound, TempsCounted, TablesCounted, StatesCounted, CallbacksCounted, Written, AllRemember, Happened,
          Balanced;
      ghost var h, temps, log := Now(), w.temps, w.log;
      AtHandle(h, i);
      status := dbs[i].New();
      DbOnly(h.faces, i);
      TakesTemp(h, i, dbs[i].privateData.id);
      assert Now() == h.(faces := h.faces[i := DbFace(i)], temps := h.temps + {dbs[i].privateData.id});
      NothingWritten(OfDatabase);
      SilentStep(log, w.log, h, i, DbFace(i));
      Settle(h, temps, log, i, DbFace(i), []);
    }

    method SetDatabaseOption(i: nat, key: string, value: string, takes: bool) returns (status: Status)
      requires Valid() && Legal(DbSetOption(i, key, value, takes))
      modifies this`writes, w
      ensures Valid() && old(w.log) <= w.log && writes == old(writes)[i := old(writes)[i] + [Wrote(key, value)]]
    {
      hide Sound, TempsCounted, TablesCounted, StatesCounted, CallbacksCounted, Written, AllRemember, Happened,
          Balanced;
      ghost var h, temps, log, ws := Now(), w.temps, w.log, writes[i] + [Wrote(key, value)];
      AtHandle(h, i);
      Recalls(h, temps, writes, i);
      status := dbs[i].SetOption(key, value, takes);
      DbOnly(h.faces, i);
      assert Now() == h;
      WrittenMore(OfDatabase, writes[i], key, value);
      SilentStep(log, w.log, h, i, DbFace(i));
      Settle(h, temps, log, i, DbFace(i), ws);
    }

    method SetDatabaseInitFunc(i: nat) returns (status: Status)
      requires Valid() && Legal(DbSetInitFunc(i))
      modifies this`writes, w
      ensures Valid() && w.log == old(w.log) && writes == old(writes)[i := old(writes)[i] + [Hooked]]
    {
      hide Sound, TempsCounted, TablesCounted, StatesCounted, CallbacksCounted, Written, AllRemember, Happened,
          Balanced;
      ghost var h, temps, log := Now(), w.temps, w.log;
      AtHandle(h, i);
      Recalls(h, temps, writes, i);
      status := dbs[i].SetInitFunc();
      DbOnly(h.faces, i);
      assert Now() == h;
      HookedMore(OfDatabase, writes[i]);
      SilentStep(log, w.log, h, i, DbFace(i));
      Settle(h, temps, log, i, DbFace(i), writes[i] + [Hooked]);
    }

    method ReleaseDatabase(i: nat, ok: bool) returns (status: Status)
      requires Valid() && Legal(DbRelease(i, ok))
      modifies this`writes, w, dbs[i]
      ensures Valid() && old(w.log) <= w.log && writes == old(writes)
    {
      hide Sound, TempsCounted, TablesCounted, StatesCounted, CallbacksCounted, Written, AllRemember, Happened,
          Balanced, Dropping;
      ghost var h, temps, log := Now(), w.temps, w.log;
      AtHandle(h, i);
      status := dbs[i].Release(ok);
      DbOnly(h.faces, i);
      if h.faces[i].driver.Some? {
        Detaches(h, i);
        ghost var t := h.faces[i].driver.value;
        assert Now()
            == h.(faces := h.faces[i := ZERO], tables := h.tables - {t}, states := h.states - StateOf(h.tables[t]));
        EndStep(log, h, i, t, h.tables[t]);
        assert w.tables.Keys == h.tables.Keys - {t};
      } else {
        SilentStep(log, w.log, h, i, DbFace(i));
        if h.faces[i].data.TempPointer? {
          DropsTemp(h, i);
          assert Now() == h.(faces := h.faces[i := ZERO], temps := h.temps - {h.faces[i].data.id});
        } else {
          assert Now() == h;
        }
      }
      Settle(h, temps, log, i, DbFace(i), writes[i]);
    }

    /** The last handshake is for this handle's writes, greeted from here. */
    ghost predicate Added(before: seq<Handshake>, owner: Owner, ws: Writes, from: nat, table: Option<nat>)
      reads this
    {
      && |handshakes| == |before| + 1 && handshakes[..|before|] == before
      && var h := handshakes[|before|];
         h.owner == owner && h.writes == ws && h.from == from && table == Some(h.table)
    }

    /** Record a handshake that the log now ends with. */
    ghost method Greet(h: Handshake, options: map<string, string>, log: seq<Event>)
      requires Greeted() && h.from == |log|
      requires options == Written(h.owner, h.writes).options && Delivered(h.keys, options) && Complete(h.keys, options)
      requires w.log == if h.owner == OfDatabase
                        then log + [Loading(h.table, Chosen(h.writes)), DatabaseNew(h.table)]
                            + Replay(OfDatabase, h.table, h.keys, options)
                             + [FreedTemp(h.temp), DatabaseInit(h.table)]
                        else log + [ConnectionNew(h.table)] + Replay(OfConnection, h.table, h.keys, options)
                             + [ConnectionInit(h.table)]
      modifies this`handshakes
      ensures Greeted() && handshakes == old(handshakes) + [h]
    {
      hide Written, LastValue, Delivered, Complete, Distinct;
      ReplayTells(h, options);
      assert w.log == log + Greeting(h);
      Appended(log, Greeting(h), w.log);
      handshakes := handshakes + [h];
    }

    /** Init of a database, and what the driver was told if it succeeded. */
    method StartDatabase(i: nat, b: Behaviour) returns (status: Status, ghost keys: seq<string>, ghost release: Release)
      requires Valid() && Legal(DbInit(i, b))
      modifies this`writes, w, dbs[i]
      ensures Valid() && old(w.log) <= w.log && writes == old(writes) && i < |writes|
      ensures status == INVALID_STATE <==> old(dbs[i].privateData) == Null
      ensures status == INVALID_ARGUMENT <==>
                old(dbs[i].privateData) != Null && Hooked !in writes[i] && OrEmpty(LastValue(writes[i], "driver")) == ""
      ensures status == OK || status == FROM_DRIVER ==>
                && |w.log| > |old(w.log)| && w.log[|old(w.log)|].Loading?
                && w.log[|old(w.log)|].source == Chosen(writes[i])
      ensures status == OK ==> dbs[i].privateDriver.Some? && old(dbs[i].privateData).TempPointer?
      ensures status == OK ==>
                && var (t, options) := (dbs[i].privateDriver.value, Written(OfDatabase, writes[i]).options);
                && Delivered(keys, options) && Complete(keys, options) && AllTaken(options, b.takes)
                && w.log == old(w.log) + [Loading(t, Chosen(writes[i]))]
                            + StartLog(b, t, release, old(dbs[i].privateData).id, keys, options)
    {
      hide Sound, TempsCounted, TablesCounted, StatesCounted, CallbacksCounted, Written, AllRemember, Happened,
          Balanced;
      hide Replay, Delivered, Complete, LastValue, AllTaken, StopsAtRefusal, Dropping, HandOverLog, StartLog;
      ghost var h, temps, log, table, can := Now(), w.temps, w.log, 0, dbs[i].CanLoad();
      AtHandle(h, i);
      Recalls(h, temps, writes, i);
      ManagerKeysKept(writes[i]);
      status, keys, table, release := dbs[i].Init(b);
      DbOnly(h.faces, i);
      DatabaseInitialised(h, i, DbFace(i), Now());
      if can && b.loads {
        ghost var id := h.faces[i].data.id;
        StartStep(log, h, i, DbFace(i), b, table, release, id, keys, temps[id].options, Chosen(writes[i]));
        assert dbs[i].privateDriver.Some? ==> w.tables.Keys == h.tables.Keys + {table};
      } else {
        DroppingIsSilent(table, release);
        assert can ==> w.log[|log|..] == [Loading(table, Chosen(writes[i]))] + Dropping(table, release);
        SilentStep(log, w.log, h, i, DbFace(i));
      }
      Settle(h, temps, log, i, DbFace(i), writes[i]);
    }

    /** The call is refused exactly on a zeroed handle, and when no driver was chosen; whatever
        is loaded is the driver chosen last. */
    method InitDatabase(i: nat, b: Behaviour) returns (status: Status)
      requires Valid() && Legal(DbInit(i, b))
      modifies this`writes, this`handshakes, w, dbs[i]
      ensures Valid() && old(w.log) <= w.log && writes == old(writes) && i < |writes|
      ensures status == OK ==> Added(old(handshakes), OfDatabase, writes[i], |old(w.log)|, dbs[i].privateDriver)
      ensures status != OK ==> handshakes == old(handshakes)
      ensures status == INVALID_STATE <==> old(dbs[i].privateData) == Null
      ensures status == INVALID_ARGUMENT <==>
                old(dbs[i].privateData) != Null && Hooked !in writes[i] && OrEmpty(LastValue(writes[i], "driver")) == ""
      ensures status == OK || status == FROM_DRIVER ==>
                && |w.log| > |old(w.log)| && w.log[|old(w.log)|].Loading?
                && w.log[|old(w.log)|].source == Chosen(writes[i])
    {
      hide Sound, TempsCounted, TablesCounted, StatesCounted, CallbacksCounted, Written, AllRemember, Happened,
          Balanced;
      hide Replay, Delivered, Complete, LastValue;
      ghost var log, data, keys, release := w.log, dbs[i].privateData, [], NoRelease;
      status, keys, release := StartDatabase(i, b);
      if status == OK {
        ghost var options := Written(OfDatabase, writes[i]).options;
        GreetingLog(b, dbs[i].privateDriver.value, release, data.id, keys, options, log, Chosen(writes[i]));
        Greet(Handshake(OfDatabase, dbs[i].privateDriver.value, data.id, writes[i], keys, |log|),
              Written(OfDatabase, writes[i]).options, log);
      }
    }

    method NewConnection(j: nat) returns (status: Status)
      requires Valid() && Legal(CnNew(j))
      modifies this`writes, w, cns[j]
      ensures Valid() && status == OK && w.log == old(w.log) && writes == old(writes)[|dbs| + j := []]
    {
      hide Sound, TempsCounted, TablesCounted, StatesCounted, CallbacksCounted, Written, AllRemember, Happened,
          Balanced;
      ghost var h, temps, log, k := Now(), w.temps, w.log, |dbs| + j;
      AtHandle(h, k);
      status := cns[j].New();
      CnOnly(h.faces, j);
      TakesTemp(h, k, cns[j].privateData.id);
      assert Now() == h.(faces := h.faces[k := CnFace(j)], temps := h.temps + {cns[j].privateData.id});
      NothingWritten(OfConnection);
      SilentStep(log, w.log, h, k, CnFace(j));
      Settle(h, temps, log, k, CnFace(j), []);
    }

    method SetConnectionOption(j: nat, key: string, value: string, takes: bool) returns (status: Status)
      requires Valid() && Legal(CnSetOption(j, key, value, takes))
      modifies this`writes, w
      ensures Valid() && old(w.log) <= w.log
      ensures writes == old(writes)[|dbs| + j := old(writes)[|dbs| + j] + [Wrote(key, value)]]
    {
      hide Sound, TempsCounted, TablesCounted, StatesCounted, CallbacksCounted, Written, AllRemember, Happened,
          Balanced;
      ghost var h, temps, log, k := Now(), w.temps, w.log, |dbs| + j;
      ghost var ws := writes[k] + [Wrote(key, value)];
      AtHandle(h, k);
      Recalls(h, temps, writes, k);
      status := cns[j].SetOption(key, value, takes);
      CnOnly(h.faces, j);
      assert Now() == h;
      WrittenMore(OfConnection, writes[k], key, value);
      SilentStep(log, w.log, h, k, CnFace(j));
      Settle(h, temps, log, k, CnFace(j), ws);
    }

    /** Init of a connection, and what the driver was told if it succeeded. */
    method Connect(j: nat, i: nat, b: Behaviour) returns (status: Status, ghost keys: seq<string>)
      requires Valid() && Legal(CnInit(j, i, b))
      modifies this`writes, w, cns[j]
      ensures Valid() && old(w.log) <= w.log && writes == old(writes) && |dbs| + j < |writes|
      ensures status == OK ==> cns[j].privateDriver.Some? && old(cns[j].privateData).TempPointer?
      ensures status == OK ==>
                && var options := Written(OfConnection, writes[|dbs| + j]).options;
                && Delivered(keys, options) && Complete(keys, options)
                && w.log == old(w.log)
                   + [FreedTemp(old(cns[j].privateData).id), ConnectionNew(cns[j].privateDriver.value)]
                            + Replay(OfConnection, cns[j].privateDriver.value, keys, options)
                            + [ConnectionInit(cns[j].privateDriver.value)]
    {
      hide Sound, TempsCounted, TablesCounted, StatesCounted, CallbacksCounted, Written, AllRemember, Happened,
          Balanced;
      hide Replay, Delivered, Complete, AllTaken, StopsAtRefusal, ConnectLog;
      ghost var h, temps, log, k := Now(), w.temps, w.log, |dbs| + j;
      AtHandle(h, i);
      AtHandle(h, k);
      Recalls(h, temps, writes, k);
      status, keys := cns[j].Init(dbs[i], b);
      CnOnly(h.faces, j);
      ConnectionInitialised(h, k, i, CnFace(j), Now());
      if status == OK || status == FROM_DRIVER {
        ghost var t, id := dbs[i].privateDriver.value, h.faces[k].data.id;
        ConnectStep(log, h, k, CnFace(j), b, t, id, keys, temps[id].options);
        if status == OK { ConnectingLog(b, t, id, keys, temps[id].options, log); }
      } else {
        SilentStep(log, w.log, h, k, CnFace(j));
      }
      Settle(h, temps, log, k, CnFace(j), writes[k]);
    }

    method InitConnection(j: nat, i: nat, b: Behaviour) returns (status: Status)
      requires Valid() && Legal(CnInit(j, i, b))
      modifies this`writes, this`handshakes, w, cns[j]
      ensures Valid() && old(w.log) <= w.log && writes == old(writes) && |dbs| + j < |writes|
      ensures status == OK ==>
                Added(old(handshakes), OfConnection, writes[|dbs| + j], |old(w.log)| + 1, cns[j].privateDriver)
      ensures status != OK ==> handshakes == old(handshakes)
    {
      hide Sound, TempsCounted, TablesCounted, StatesCounted, CallbacksCounted, Written, AllRemember, Happened,
          Balanced;
      hide Replay, Delivered, Complete;
      ghost var log, data, k, keys := w.log, cns[j].privateData, |dbs| + j, [];
      status, keys := Connect(j, i, b);
      if status == OK {
        ghost var t := cns[j].privateDriver.value;
        Greet(Handshake(OfConnection, t, data.id, writes[k], keys, |log| + 1),
              Written(OfConnection, writes[k]).options, log + [FreedTemp(data.id)]);
      }
    }

    method ReleaseConnection(j: nat, ok: bool, clears: bool) returns (status: Status)
      requires Valid() && Legal(CnRelease(j, ok, clears))
      modifies this`writes, w, cns[j]
      ensures Valid() && old(w.log) <= w.log && writes == old(writes)
    {
      hide Sound, TempsCounted, TablesCounted, StatesCounted, CallbacksCounted, Written, AllRemember, Happened,
          Balanced;
      ghost var h, temps, log, k := Now(), w.temps, w.log, |dbs| + j;
      AtHandle(h, k);
      status := cns[j].Release(ok, clears);
      CnOnly(h.faces, j);
      if h.faces[k].driver.Some? {
        Leaves(h, k);
        assert Now() == h.(faces := h.faces[k := ZERO]);
        LeaveStep(log, h, k, h.faces[k].driver.value);
      } else {
        SilentStep(log, w.log, h, k, CnFace(j));
        if h.faces[k].data.TempPointer? {
          DropsTemp(h, k);
          assert Now() == h.(faces := h.faces[k := ZERO], temps := h.temps - {h.faces[k].data.id});
        } else {
          assert Now() == h;
        }
      }
      Settle(h, temps, log, k, CnFace(j), writes[k]);
    }

    ghost function Index(call: Call): nat { if ForDatabase(call) then call.i else |dbs| + call.i }

    /** One call.  Only writes to a handle and its New change what it remembers; a successful
        Init, and nothing else, is a handshake for what had been written to the handle. */
    method Perform(call: Call) returns (status: Status)
      requires Valid() && Legal(call)
      modifies this, w, dbs, cns
      ensures Valid() && old(w.log) <= w.log
      ensures Index(call) < |writes| == |old(writes)|
      ensures writes == old(writes)[Index(call) := WritesAfter(call, old(writes)[Index(call)])]
      ensures call.DbInit? && status == OK ==>
                Added(old(handshakes), OfDatabase, old(writes)[call.i], |old(w.log)|, dbs[call.i].privateDriver)
      ensures call.CnInit? && status == OK ==>
                Added(old(handshakes), OfConnection, old(writes)[|dbs| + call.i], |old(w.log)| + 1,
                      cns[call.i].privateDriver)
      ensures !(IsInit(call) && status == OK) ==> handshakes == old(handshakes)
    {
      hide Valid, Added, Sound, AllRemember, TempsCounted, TablesCounted, StatesCounted, CallbacksCounted, Happened;
      Sized();
      match call {
        case DbNew(i) => status := NewDatabase(i);
        case DbSetOption(i, key, value, takes) => status := SetDatabaseOption(i, key, value, takes);
        case DbSetInitFunc(i) => status := SetDatabaseInitFunc(i);
        case DbInit(i, b) => status := InitDatabase(i, b);
        case DbRelease(i, ok) => status := ReleaseDatabase(i, ok);
        case CnNew(j) => status := NewConnection(j);
        case CnSetOption(j, key, value, takes) => status := SetConnectionOption(j, key, value, takes);
        case CnInit(j, i, b) => status := InitConnection(j, i, b);
        case CnRelease(j, ok, clears) => status := ReleaseConnection(j, ok, clears);
      }
    }

    lemma Sized()
      requires Valid()
      ensures |writes| == |dbs| + |cns|
    {
    }

    ghost predicate AllZero()
      reads dbs, cns
    {
      forall k | 0 <= k < |Faces()| :: Faces()[k] == ZERO
    }

    /** Any series of legal calls on any number of handles, whatever the drivers loaded along
        the way do within what Legal asks of them: every object is owned by exactly one handle
        or has been freed once, when all handles are back to zero nothing is left, here or in
        the drivers, and every successful Init, and nothing else, was a handshake. */
    method Run(calls: seq<Call>) returns (statuses: seq<Option<Status>>)
      requires Valid()
      modifies this, w, dbs, cns
      ensures Valid() && |statuses| == |calls|
      ensures AllZero() ==> w.temps == map[] && w.tables == map[] && w.states == {} && Even(w.log)
      ensures |handshakes| == |old(handshakes)| + Inits(calls, statuses)
    {
      hide Valid, Sound, AllRemember, TempsCounted, TablesCounted, StatesCounted, CallbacksCounted, Happened;
      statuses := [];
      ghost var before := handshakes;
      for n := 0 to |calls|
        invariant Valid() && |statuses| == n
        invariant |handshakes| == |before| + Inits(calls[..n], statuses)
      {
        var status := None;
        if Legal(calls[n]) {
          var s := Perform(calls[n]);
          status := Some(s);
        }
        OneMoreInit(calls, n, statuses, status);
        statuses := statuses + [status];
      }
      assert calls[..|calls|] == calls;
      if AllZero() { Emptied(); }
    }

    lemma Emptied()
      requires Valid() && AllZero()
      ensures w.temps == map[] && w.tables == map[] && w.states == {} && Even(w.log)
    {
      hide Balanced, Even;
      NothingLeft(Now());
      EvenExactly(w.log, Now());
    }
  }

  predicate Succeeds(call: Call, status: Option<Status>) { IsInit(call) && status == Some(OK) }

  /** How many calls of Init succeeded. */
  function Inits(calls: seq<Call>, statuses: seq<Option<Status>>): nat
    requires |calls| == |statuses|
  {
    if calls == [] then 0
    else
      var n := |calls| - 1;
      Inits(calls[..n], statuses[..n]) + if Succeeds(calls[n], statuses[n]) then 1 else 0
  }

  lemma OneMoreInit(calls: seq<Call>, n: nat, statuses: seq<Option<Status>>, status: Option<Status>)
    requires n < |calls| && |statuses| == n
    ensures Inits(calls[..n + 1], statuses + [status])
         == Inits(calls[..n], statuses) + if Succeeds(calls[n], status) then 1 else 0
  {
    assert calls[..n + 1][..n] == calls[..n] && (statuses + [status])[..n] == statuses;
  }

  /** Init of a database: nothing changes hands, the options are gone, or they are gone and a
      new table is the handle's. */
  lemma {:induction false} DatabaseInitialised(h: Holding, k: nat, f: Face, g: Holding)
    requires Sound(h) && k < |h.faces| && k < h.dbs && h.faces[k].driver.None? && Only(h, g, k, f)
    requires f.driver.None? ==> g.tables == h.tables && g.states == h.states
    requires f.driver.None? ==> (f == h.faces[k] && g.temps == h.temps)
                                || (f == ZERO && h.faces[k].data.TempPointer?
                                    && g.temps == h.temps - {h.faces[k].data.id})
    requires f.driver.Some? ==>
               && var t := f.driver.value;
               && h.faces[k].data.TempPointer? && !f.data.TempPointer? && g.temps == h.temps - {h.faces[k].data.id}
               && t !in h.tables && t in g.tables && g.tables == h.tables[t := g.tables[t]]
               && StateOf(g.tables[t]) !! h.states && g.states == h.states + StateOf(g.tables[t])
    ensures Sound(g)
  {
    hide Sound;
    if f == h.faces[k] && f.driver.None? {
      assert g == h;
    } else {
      DropsTemp(h, k);
      var dropped := h.(faces := h.faces[k := ZERO], temps := h.temps - {h.faces[k].data.id});
      if f.driver.Some? {
        var t := f.driver.value;
        Attaches(dropped, k, t, g.tables[t], f.data);
        assert dropped.faces[k := f] == g.faces;
      } else {
        assert g == dropped;
      }
    }
  }

  /** Init of a connection: nothing changes, or the options are gone and it uses a
      database's table. */
  lemma {:induction false} ConnectionInitialised(h: Holding, k: nat, i: nat, f: Face, g: Holding)
    requires Sound(h) && i < h.dbs <= k < |h.faces| && h.faces[k].driver.None? && Only(h, g, k, f)
    requires g.tables == h.tables && g.states == h.states
    requires || (f == h.faces[k] && g.temps == h.temps)
             || (&& h.faces[k].data.TempPointer? && !f.data.TempPointer? && g.temps == h.temps - {h.faces[k].data.id}
                 && f.driver.Some? && f.driver == h.faces[i].driver)
    ensures Sound(g)
  {
    hide Sound, FaceOk;
    if f == h.faces[k] && f.driver.None? {
      assert g == h;
    } else {
      DropsTemp(h, k);
      var dropped := h.(faces := h.faces[k := ZERO], temps := h.temps - {h.faces[k].data.id});
      assert Uses(dropped.faces[i], f.driver.value);
      Joins(dropped, k, f.driver.value, f.data);
      assert dropped.faces[k := f] == g.faces;
    }
  }

  lemma GreetingLog(
    b: Behaviour, table: nat, release: Release, temp: nat, keys: seq<string>, options: map<string, string>,
    log: seq<Event>, source: Source)
    requires b.newOk && Delivered(keys, options) && AllTaken(options, b.takes)
    ensures log + [Loading(table, source)] + StartLog(b, table, release, temp, keys, options)
         == log + [Loading(table, source), DatabaseNew(table)] + Replay(OfDatabase, table, keys, options)
            + [FreedTemp(temp), DatabaseInit(table)]
  {
    hide Replay, AllTaken;
  }

  lemma ConnectingLog(
    b: Behaviour, table: nat, temp: nat, keys: seq<string>, options: map<string, string>, log: seq<Event>)
    requires b.newOk && Delivered(keys, options) && AllTaken(options, b.takes)
    ensures log + [FreedTemp(temp)] + ConnectLog(b, table, keys, options)
         == log + [FreedTemp(temp), ConnectionNew(table)] + Replay(OfConnection, table, keys, options)
            + [ConnectionInit(table)]
  {
    hide Replay, AllTaken;
  }

  lemma AtHandle(h: Holding, k: nat)
    requires Sound(h) && k < |h.faces|
    ensures FaceOk(h, k) && FacesApart(h)
  {
  }

  lemma Recalls(h: Holding, temps: map<nat, Temp>, writes: seq<Writes>, k: nat)
    requires AllRemember(temps, h.faces, writes, h.dbs) && k < |h.faces|
    ensures |writes| == |h.faces| && Remembers(OwnerOf(k, h.dbs), temps, h.faces[k], writes[k])
  {
  }

  lemma NothingWritten(owner: Owner)
    ensures Written(owner, []) == NOTHING
  {
  }

  lemma WrittenMore(owner: Owner, writes: Writes, key: string, value: string)
    ensures var before := Written(owner, writes);
            Written(owner, writes + [Wrote(key, value)])
            == if owner == OfDatabase then before.Set(key, value) else before.(options := before.options[key := value])
  {
    assert (writes + [Wrote(key, value)])[..|writes|] == writes;
  }

  lemma HookedMore(owner: Owner, writes: Writes)
    ensures Written(owner, writes + [Hooked]) == Written(owner, writes).(initFunc := true)
  {
    assert (writes + [Hooked])[..|writes|] == writes;
  }
}
