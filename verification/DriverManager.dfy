/** The driver manager: handles whose untyped private_data first points to options kept
    for later and then belongs to the driver. */
module DriverManager {
  import opened Wrappers

  // ---------------------------------------------------------------------
  // The heap
  // ---------------------------------------------------------------------

  /** Options held before Init, of a database or of a connection. */
  datatype Temp = Temp(options: map<string, string>, driver: string, entrypoint: string, initFunc: bool) {
    /** Two keys are addressed to the manager itself. */
    function Set(key: string, value: string): Temp {
      if key == "driver" then this.(driver := value)
      else if key == "entrypoint" then this.(entrypoint := value)
      else this.(options := options[key := value])
    }
  }

  const NOTHING := Temp(map[], "", "", false)

  /** A table's release entry: none, the driver's own, or the manager's wrapper around the
      driver's, with the state it keeps for that. */
  datatype Release = NoRelease | OwnRelease | ManagerRelease(state: nat, wrapsOwn: bool)

  /** Where a driver comes from: a shared library and one of its symbols, or a function. */
  datatype Source = ByName(driver: string, entrypoint: string) | ByInitFunc

  /** Loading, deallocations, and the calls a driver receives through a function table. */
  datatype Event =
    | Loading(table: nat, source: Source)
    | FreedTemp(id: nat)
    | FreedTable(id: nat)
    | FreedState(id: nat)
    | DriverRelease(table: nat)
    | DatabaseNew(table: nat)
    | DatabaseSetOption(table: nat, key: string, value: string)
    | DatabaseInit(table: nat)
    | DatabaseRelease(table: nat)
    | ConnectionNew(table: nat)
    | ConnectionSetOption(table: nat, key: string, value: string)
    | ConnectionInit(table: nat)
    | ConnectionRelease(table: nat)

  predicate IsCall(e: Event) { !e.FreedTemp? && !e.FreedTable? && !e.FreedState? && !e.DriverRelease? }

  class World {
    var temps: map<nat, Temp>
    var tables: map<nat, Release>
    var states: set<nat>
    var nextTemp: nat
    var nextTable: nat
    var nextState: nat
    var log: seq<Event>
    ghost var owning: set<nat>    // tables with a release callback of the driver's own

    /** What was allocated is alive and was never freed, or is gone and was freed once; the
        driver's own release callback was called once for each table that is gone. */
    ghost predicate Valid()
      reads this
    {
      && TempsCounted(log, nextTemp, temps.Keys)
      && TablesCounted(log, nextTable, tables.Keys)
      && StatesCounted(log, nextState, states)
      && CallbacksCounted(log, nextTable, tables, owning)
    }

    constructor ()
      ensures Valid() && temps == map[] && tables == map[] && states == {} && log == []
    {
      temps, tables, states := map[], map[], {};
      nextTemp, nextTable, nextState, log, owning := 0, 0, 0, [], {};
    }

    method NewTemp() returns (id: nat)
      requires Valid()
      modifies this`temps, this`nextTemp
      ensures Valid() && id !in old(temps) && temps == old(temps)[id := NOTHING]
    {
      id := nextTemp;
      temps, nextTemp := temps[id := NOTHING], nextTemp + 1;
    }

    method UpdateTemp(id: nat, temp: Temp)
      requires Valid() && id in temps
      modifies this`temps
      ensures Valid() && temps == old(temps)[id := temp]
    {
      temps := temps[id := temp];
    }

    method FreeTemp(id: nat)
      requires Valid() && id in temps
      modifies this`temps, this`log
      ensures Valid() && temps == old(temps) - {id} && log == old(log) + [FreedTemp(id)]
    {
      temps, log := temps - {id}, log + [FreedTemp(id)];
    }

    method NewTable() returns (id: nat)
      requires Valid()
      modifies this`tables, this`nextTable
      ensures Valid() && id !in old(tables) && tables == old(tables)[id := NoRelease]
    {
      id := nextTable;
      tables, nextTable := tables[id := NoRelease], nextTable + 1;
    }

    method SetRelease(id: nat, release: Release)
      requires Valid() && id in tables
      modifies this`tables, this`owning
      ensures Valid() && tables == old(tables)[id := release]
    {
      tables := tables[id := release];
      owning := if HasCallback(release) then owning + {id} else owning - {id};
    }

    method NewState() returns (id: nat)
      requires Valid()
      modifies this`states, this`nextState
      ensures Valid() && id !in old(states) && states == old(states) + {id}
    {
      id := nextState;
      states, nextState := states + {id}, nextState + 1;
    }

    method Call(e: Event)
      requires Valid() && IsCall(e)
      modifies this`log
      ensures Valid() && log == old(log) + [e]
    {
      log := log + [e];
    }

    /** Call a table's release entry, if it has one, and delete the table: the driver's own
        callback is called once, and the manager's state goes with the table. */
    method DropTable(id: nat)
      requires Valid() && id in tables && (tables[id].ManagerRelease? ==> tables[id].state in states)
      modifies this`tables, this`states, this`log
      ensures Valid() && tables == old(tables) - {id}
      ensures states == old(states) - StateOf(old(tables[id]))
      ensures log == old(log) + Dropping(id, old(tables[id]))
    {
      hide TempsCounted, TablesCounted, StatesCounted, CallbacksCounted;
      DroppedStillCounted(log, temps.Keys, tables, states, owning, nextTemp, nextTable, nextState, id);
      var release := tables[id];
      if release.OwnRelease? {
        log := log + [DriverRelease(id)];
      } else if release.ManagerRelease? {
        if release.wrapsOwn { log := log + [DriverRelease(id)]; }
        states, log := states - {release.state}, log + [FreedState(release.state)];
      }
      tables, log := tables - {id}, log + [FreedTable(id)];
      assert log == old(log) + Dropping(id, release) && states == old(states) - StateOf(release);
    }

    /** Hand every kept option to the driver, in whatever order the map yields them, until
        one is refused. */
    method ReplayOptions(owner: Owner, table: nat, options: map<string, string>, takes: (string, string) -> bool)
      returns (ok: bool, ghost keys: seq<string>)
      requires Valid()
      modifies this`log
      ensures Valid() && Delivered(keys, options)
      ensures log == old(log) + Replay(owner, table, keys, options)
      ensures ok <==> AllTaken(options, takes)
      ensures ok ==> Complete(keys, options)
      ensures !ok ==> StopsAtRefusal(keys, options, takes)
    {
      hide TempsCounted, TablesCounted, StatesCounted, CallbacksCounted;
      keys := [];
      var rest := options.Keys;
      while rest != {}
        invariant Valid() && Delivered(keys, options)
        invariant rest <= options.Keys && forall k :: k in keys <==> k in options.Keys - rest
        invariant log == old(log) + Replay(owner, table, keys, options)
        invariant forall k | k in options.Keys - rest :: takes(k, options[k])
        decreases |rest|
      {
        var key :| key in rest;
        ghost var before := keys;
        Call(OptionCall(owner, table, key, options[key]));
        keys := keys + [key];
        assert Replay(owner, table, keys, options)
            == Replay(owner, table, before, options) + [OptionCall(owner, table, key, options[key])];
        if !takes(key, options[key]) {
          assert forall i | 0 <= i < |before| :: before[i] in before;
          return false, keys;
        }
        rest := rest - {key};
      }
      return true, keys;
    }
  }

  /** How often an event is in a log. */
  function Times(log: seq<Event>, e: Event): nat { multiset(log)[e] }

  lemma TimesAppend(log: seq<Event>, more: seq<Event>, e: Event)
    ensures Times(log + more, e) == Times(log, e) + Times(more, e)
  {
  }

  lemma TimesFew(a: Event, e: Event)
    ensures Times([], e) == 0 && Times([a], e) == if a == e then 1 else 0
  {
  }

  ghost predicate TempsCounted(log: seq<Event>, next: nat, live: set<nat>) {
    && (forall id | id in live :: id < next)
    && forall id: nat :: Times(log, FreedTemp(id)) == if id < next && id !in live then 1 else 0
  }

  ghost predicate TablesCounted(log: seq<Event>, next: nat, live: set<nat>) {
    && (forall id | id in live :: id < next)
    && forall id: nat :: Times(log, FreedTable(id)) == if id < next && id !in live then 1 else 0
  }

  ghost predicate StatesCounted(log: seq<Event>, next: nat, live: set<nat>) {
    && (forall id | id in live :: id < next)
    && forall id: nat :: Times(log, FreedState(id)) == if id < next && id !in live then 1 else 0
  }

  predicate HasCallback(release: Release) { release.OwnRelease? || (release.ManagerRelease? && release.wrapsOwn) }

  ghost predicate CallbacksCounted(log: seq<Event>, next: nat, tables: map<nat, Release>, owning: set<nat>) {
    && (forall t | t in owning :: t < next)
    && (forall t | t in tables :: t in owning <==> HasCallback(tables[t]))
    && forall t: nat :: Times(log, DriverRelease(t)) == if t in owning && t !in tables then 1 else 0
  }

  function StateOf(release: Release): set<nat> { if release.ManagerRelease? then {release.state} else {} }

  function Dropping(table: nat, release: Release): seq<Event> {
    (if release.OwnRelease? || (release.ManagerRelease? && release.wrapsOwn) then [DriverRelease(table)] else [])
    + (if release.ManagerRelease? then [FreedState(release.state)] else [])
    + [FreedTable(table)]
  }

  /** Dropping frees the table and its state, and calls the driver's callback, once each. */
  lemma {:induction false} DroppingTimes(table: nat, release: Release, e: Event)
    ensures Times(Dropping(table, release), e) ==
            match e
            case FreedTable(id) => if id == table then 1 else 0
            case FreedState(id) => if id in StateOf(release) then 1 else 0
            case DriverRelease(id) => if id == table && HasCallback(release) then 1 else 0
            case _ => 0
  {
    hide Times;
    var called := if HasCallback(release) then [DriverRelease(table)] else [];
    var freed := if release.ManagerRelease? then [FreedState(release.state)] else [];
    assert Dropping(table, release) == called + (freed + [FreedTable(table)]);
    TimesFew(DriverRelease(table), e);
    TimesFew(FreedTable(table), e);
    if release.ManagerRelease? { TimesFew(FreedState(release.state), e); }
    TimesAppend(called, freed + [FreedTable(table)], e);
    TimesAppend(freed, [FreedTable(table)], e);
  }

  /** Dropping a table keeps all counts. */
  lemma {:induction false} DroppedStillCounted(
    log: seq<Event>, temps: set<nat>, tables: map<nat, Release>, states: set<nat>, owning: set<nat>,
    nextTemp: nat, nextTable: nat, nextState: nat, id: nat)
    requires TempsCounted(log, nextTemp, temps) && TablesCounted(log, nextTable, tables.Keys)
    requires StatesCounted(log, nextState, states) && CallbacksCounted(log, nextTable, tables, owning)
    requires id in tables && StateOf(tables[id]) <= states
    ensures var after := log + Dropping(id, tables[id]);
            && TempsCounted(after, nextTemp, temps) && TablesCounted(after, nextTable, (tables - {id}).Keys)
            && StatesCounted(after, nextState, states - StateOf(tables[id]))
            && CallbacksCounted(after, nextTable, tables - {id}, owning)
  {
    hide Dropping, Times;
    var dropping := Dropping(id, tables[id]);
    forall e ensures Times(log + dropping, e) == Times(log, e) + Times(dropping, e) { TimesAppend(log, dropping, e); }
    forall e: Event
      ensures Times(dropping, e) ==
              match e
              case FreedTable(t) => if t == id then 1 else 0
              case FreedState(st) => if st in StateOf(tables[id]) then 1 else 0
              case DriverRelease(t) => if t == id && HasCallback(tables[id]) then 1 else 0
              case _ => 0
    {
      DroppingTimes(id, tables[id], e);
    }
  }

  // ---------------------------------------------------------------------
  // The database handle
  // ---------------------------------------------------------------------

  /** The untyped pointer: only the code that knows the handle's phase can tell what it
      points to. */
  datatype Data = Null | TempPointer(id: nat) | DriverData

  datatype Status = OK | INVALID_STATE | INVALID_ARGUMENT | FROM_DRIVER

  /** How a driver behaves while it is loaded and initialised: whether loading succeeds and
      fills in a release entry, whether its New succeeds and sets private_data, which
      options it takes, and whether its Init succeeds. */
  datatype Behaviour = Behaviour(
    loads: bool, hasRelease: bool, newOk: bool, newSetsData: bool, takes: (string, string) -> bool, initOk: bool)

  datatype Owner = OfDatabase | OfConnection

  function OptionCall(owner: Owner, table: nat, key: string, value: string): Event {
    if owner == OfDatabase then DatabaseSetOption(table, key, value) else ConnectionSetOption(table, key, value)
  }

  /** Option calls for the given keys, in that order. */
  function Replay(owner: Owner, table: nat, keys: seq<string>, options: map<string, string>): seq<Event>
    requires forall i | 0 <= i < |keys| :: keys[i] in options
  {
    seq(|keys|, i requires 0 <= i < |keys| => OptionCall(owner, table, keys[i], options[keys[i]]))
  }

  /** What happens once New has succeeded: the options, up to the first that is refused, and
      then Init or, if one was refused, the driver's Release and the end of its table. */
  function HandOverLog(
      b: Behaviour, table: nat, release: Release, temp: nat, keys: seq<string>, options: map<string,
          string>): seq<Event>
    requires Delivered(keys, options)
  {
    Replay(OfDatabase, table, keys, options) + [FreedTemp(temp)]
    + if AllTaken(options, b.takes) then [DatabaseInit(table)] else [DatabaseRelease(table)] + Dropping(table, release)
  }

  /** What happens once the driver is loaded. */
  function StartLog(
      b: Behaviour, table: nat, release: Release, temp: nat, keys: seq<string>, options: map<string,
          string>): seq<Event>
    requires b.newOk ==> Delivered(keys, options)
  {
    [DatabaseNew(table)]
    + if b.newOk then HandOverLog(b, table, release, temp, keys, options) else Dropping(table, release)
  }

  function SourceOf(temp: Temp): Source {
    if temp.initFunc then ByInitFunc else ByName(temp.driver, temp.entrypoint)
  }

  predicate Distinct(keys: seq<string>) { forall i, j | 0 <= i < j < |keys| :: keys[i] != keys[j] }

  class Database {
    const w: World
    var privateData: Data
    var privateDriver: Option<nat>

    /** A zeroed handle. */
    constructor (w: World)
      ensures this.w == w && privateData == Null && privateDriver == None
    {
      this.w, privateData, privateDriver := w, Null, None;
    }

    /** Without a driver the pointer is null or to live options; with one, it is the
        driver's business and the table is live. */
    ghost predicate Valid()
      reads this, w
    {
      && w.Valid()
      && match privateDriver
         case None => privateData.Null? || (privateData.TempPointer? && privateData.id in w.temps)
         case Some(t) => !privateData.TempPointer? && t in w.tables && StateOf(w.tables[t]) <= w.states
    }

    method New() returns (status: Status)
      requires Valid() && privateData == Null && privateDriver == None
      modifies this, w`temps, w`nextTemp
      ensures Valid() && status == OK && privateDriver == None && privateData.TempPointer?
      ensures privateData.id !in old(w.temps) && w.temps == old(w.temps)[privateData.id := NOTHING]
    {
      var id := w.NewTemp();
      privateData, privateDriver := TempPointer(id), None;
      return OK;
    }

    /** Before Init the option is kept; afterwards it is the driver's to take or refuse. */
    method SetOption(key: string, value: string, takes: bool) returns (status: Status)
      requires Valid() && (privateData != Null || privateDriver.Some?)
      modifies w`temps, w`log
      ensures Valid()
      ensures privateDriver.None? ==>
                && status == OK && w.log == old(w.log)
                && w.temps == old(w.temps)[privateData.id := old(w.temps)[privateData.id].Set(key, value)]
      ensures privateDriver.Some? ==>
                && w.temps == old(w.temps) && status == (if takes then OK else FROM_DRIVER)
                && w.log == old(w.log) + [DatabaseSetOption(privateDriver.value, key, value)]
    {
      if privateDriver.Some? {
        w.Call(DatabaseSetOption(privateDriver.value, key, value));
        return if takes then OK else FROM_DRIVER;
      }
      var args := privateData.id;
      w.UpdateTemp(args, w.temps[args].Set(key, value));
      return OK;
    }

    method SetInitFunc() returns (status: Status)
      requires Valid() && (privateData != Null || privateDriver.Some?)
      modifies w`temps
      ensures Valid() && status == if privateDriver.Some? then INVALID_STATE else OK
      ensures w.temps == if privateDriver.Some? then old(w.temps)
                         else old(w.temps)[privateData.id := old(w.temps)[privateData.id].(initFunc := true)]
    {
      if privateDriver.Some? { return INVALID_STATE; }
      var args := privateData.id;
      w.UpdateTemp(args, w.temps[args].(initFunc := true));
      return OK;
    }

    /** Load the driver into a new table.  A driver found by name gets the manager's release
        wrapper. */
    method Load(b: Behaviour, temp: Temp) returns (table: nat)
      requires w.Valid()
      modifies w`tables, w`states, w`nextTable, w`nextState, w`owning, w`log
      ensures w.Valid() && table !in old(w.tables) && w.log == old(w.log) + [Loading(table, SourceOf(temp))]
      ensures table in w.tables && w.tables == old(w.tables)[table := w.tables[table]]
      ensures StateOf(w.tables[table]) !! old(w.states) && w.states == old(w.states) + StateOf(w.tables[table])
      ensures w.tables[table].ManagerRelease? <==> b.loads && !temp.initFunc
      ensures HasCallback(w.tables[table]) <==> b.hasRelease
    {
      hide TempsCounted, TablesCounted, StatesCounted, CallbacksCounted;
      table := w.NewTable();
      w.SetRelease(table, if b.hasRelease then OwnRelease else NoRelease);
      w.Call(Loading(table, if temp.initFunc then ByInitFunc else ByName(temp.driver, temp.entrypoint)));
      if b.loads && !temp.initFunc {
        var state := w.NewState();
        w.SetRelease(table, ManagerRelease(state, b.hasRelease));
      }
    }

    /** What Init finds: nothing to start from, no driver named, or a driver to load. */
    predicate CanLoad()
      reads this, w
    {
      privateData.TempPointer? && privateData.id in w.temps &&
      (w.temps[privateData.id].initFunc || w.temps[privateData.id].driver != "")
    }

    /** The handle's table and its state came on top of these. */
    ghost predicate Attached(tables: map<nat, Release>, states: set<nat>)
      reads this, w
    {
      && privateDriver.Some? && privateDriver.value in w.tables && privateDriver.value !in tables
      && w.tables == tables[privateDriver.value := w.tables[privateDriver.value]]
      && StateOf(w.tables[privateDriver.value]) !! states
      && w.states == states + StateOf(w.tables[privateDriver.value])
    }

    /** Init on a handle without a driver.  Every path but one settles the kept options:
        they are still the handle's after a failed load, and freed once the driver has
        refused an option or has been given all of them, each once, before its own Init.
        When the driver's New fails they are lost, and the handle stays well-typed only
        if that New left private_data null. */
    method Init(b: Behaviour)
      returns (status: Status, ghost keys: seq<string>, ghost table: nat, ghost release: Release)
      requires Valid() && privateDriver == None
      modifies this, w
      ensures w.Valid() && old(w.log) <= w.log
      ensures Valid() <==> !(old(CanLoad()) && b.loads && !b.newOk && b.newSetsData)
      ensures old(privateData).Null? <==> status == INVALID_STATE
      ensures status == INVALID_ARGUMENT <==> !old(privateData).Null? && !old(CanLoad())
      ensures !old(CanLoad()) || !b.loads ==>
                privateData == old(privateData) && privateDriver == None && w.temps == old(w.temps)
      ensures !old(CanLoad()) ==> w.log == old(w.log)
      ensures old(CanLoad()) ==> table !in old(w.tables) && (HasCallback(release) <==> b.hasRelease)
      ensures old(CanLoad()) && !b.loads ==>
                w.log == old(w.log) + [Loading(table, SourceOf(old(w.temps)[old(privateData).id]))]
                         + Dropping(table, release)
      ensures old(CanLoad()) && b.loads ==>
                && var temp := old(w.temps)[old(privateData).id];
                && (b.newOk ==> Delivered(keys, temp.options))
                && w.log == old(w.log) + [Loading(table, SourceOf(temp))]
                            + StartLog(b, table, release, old(privateData).id, keys, temp.options)
                && (b.newOk && !AllTaken(temp.options, b.takes) ==> StopsAtRefusal(keys, temp.options, b.takes))
                && (privateDriver.Some? <==> b.newOk && AllTaken(temp.options, b.takes))
      ensures status == OK <==>
                && old(CanLoad()) && b.loads && b.newOk && b.initOk
                && AllTaken(old(w.temps)[old(privateData).id].options, b.takes)
      ensures old(CanLoad()) && b.loads && !b.newOk ==>
                privateData == (if b.newSetsData then DriverData else Null) && privateDriver == None
                    && w.temps == old(w.temps)
      ensures old(CanLoad()) && b.loads && b.newOk ==> w.temps == old(w.temps) - {old(privateData).id}
      ensures privateDriver == None ==> w.tables == old(w.tables) && w.states == old(w.states)
      ensures privateDriver.Some? ==>
                && old(CanLoad()) && b.loads && b.newOk && status == (if b.initOk then OK else FROM_DRIVER)
                && Attached(old(w.tables), old(w.states)) && table == privateDriver.value
                && var options := old(w.temps)[old(privateData).id].options;
                   Delivered(keys, options) && Complete(keys, options) && AllTaken(options, b.takes)
      ensures old(CanLoad()) && b.loads && b.newOk && privateDriver == None ==> privateData == Null
      ensures status == OK ==> privateDriver.Some?
    {
      hide TempsCounted, TablesCounted, StatesCounted, CallbacksCounted, Replay, Delivered, Complete;
      keys := [];
      if privateData.Null? { return INVALID_STATE, keys, 0, NoRelease; }
      var args := privateData.id;
      var temp := w.temps[args];
      if !temp.initFunc && temp.driver == "" { return INVALID_ARGUMENT, keys, 0, NoRelease; }

      ghost var tables, states := w.tables, w.states;
      var t := Load(b, temp);
      table, release := t, w.tables[t];
      privateDriver, privateData := Some(t), Null;
      if !b.loads {
        privateData := TempPointer(args);
        Detach(tables, states);
        return FROM_DRIVER, keys, table, release;
      }
      status, keys := StartUp(b, args, tables, states);
    }

    /** Create the database in the driver that has just been loaded, and hand over to it. */
    method StartUp(b: Behaviour, args: nat, ghost tables: map<nat, Release>, ghost states: set<nat>)
      returns (status: Status, ghost keys: seq<string>)
      requires w.Valid() && Attached(tables, states) && args in w.temps && privateData == Null
      modifies this, w
      ensures w.Valid() && old(w.log) <= w.log && (status == OK || status == FROM_DRIVER)
      ensures privateDriver == None ==> status == FROM_DRIVER && w.tables == tables && w.states == states
      ensures !b.newOk ==>
                privateDriver == None && privateData == (if b.newSetsData then DriverData else Null)
                && w.temps == old(w.temps)
      ensures b.newOk ==> w.temps == old(w.temps) - {args} && !privateData.TempPointer?
      ensures b.newOk && privateDriver == None ==> privateData == Null
      ensures privateDriver.Some? ==>
                && b.newOk && privateDriver == old(privateDriver) && Attached(tables, states)
                && status == (if b.initOk then OK else FROM_DRIVER)
      ensures privateDriver.Some? <==> b.newOk && AllTaken(old(w.temps)[args].options, b.takes)
      ensures b.newOk ==> Delivered(keys, old(w.temps)[args].options)
      ensures w.log == old(w.log) + StartLog(b, old(privateDriver).value, old(w.tables)[old(privateDriver).value],
                                             args, keys, old(w.temps)[args].options)
      ensures privateDriver.Some? ==> Complete(keys, old(w.temps)[args].options)
      ensures b.newOk && privateDriver == None ==> StopsAtRefusal(keys, old(w.temps)[args].options, b.takes)
    {
      hide TempsCounted, TablesCounted, StatesCounted, CallbacksCounted;
      hide Replay, Delivered, Complete, AllTaken, StopsAtRefusal, Dropping;
      keys := [];
      w.Call(DatabaseNew(privateDriver.value));
      if b.newSetsData { privateData := DriverData; }
      if !b.newOk {
        Detach(tables, states);
        return FROM_DRIVER, keys;
      }
      status, keys := HandOver(b, args, tables, states);
    }

    /** Give the kept options to the driver that has just been attached, and free them. */
    method HandOver(b: Behaviour, args: nat, ghost tables: map<nat, Release>, ghost states: set<nat>)
      returns (status: Status, ghost keys: seq<string>)
      requires w.Valid() && Attached(tables, states) && args in w.temps && !privateData.TempPointer?
      modifies this, w
      ensures w.Valid() && old(w.log) <= w.log
      ensures w.temps == old(w.temps) - {args} && !privateData.TempPointer?
      ensures privateDriver == None ==>
                w.tables == tables && w.states == states && privateData == Null && status == FROM_DRIVER
      ensures privateDriver.Some? ==>
                && privateDriver == old(privateDriver) && Attached(tables, states)
                && status == (if b.initOk then OK else FROM_DRIVER)
      ensures privateDriver.Some? <==> AllTaken(old(w.temps)[args].options, b.takes)
      ensures Delivered(keys, old(w.temps)[args].options)
      ensures w.log == old(w.log) + HandOverLog(b, old(privateDriver).value, old(w.tables)[old(privateDriver).value],
                                                args, keys, old(w.temps)[args].options)
      ensures privateDriver.Some? ==> Complete(keys, old(w.temps)[args].options)
      ensures privateDriver == None ==> StopsAtRefusal(keys, old(w.temps)[args].options, b.takes)
    {
      hide TempsCounted, TablesCounted, StatesCounted, CallbacksCounted;
      hide Replay, Delivered, Complete, AllTaken, StopsAtRefusal, Dropping;
      var table := privateDriver.value;
      var taken;
      taken, keys := w.ReplayOptions(OfDatabase, table, w.temps[args].options, b.takes);
      w.FreeTemp(args);
      if !taken {
        w.Call(DatabaseRelease(table));
        Detach(tables, states);
        privateData := Null;
        return FROM_DRIVER, keys;
      }
      w.Call(DatabaseInit(table));
      return if b.initOk then OK else FROM_DRIVER, keys;
    }

    /** Release and delete the table again, which leaves the tables as they were. */
    method Detach(ghost tables: map<nat, Release>, ghost states: set<nat>)
      requires w.Valid() && Attached(tables, states)
      modifies this`privateDriver, w`tables, w`states, w`log
      ensures w.Valid() && privateDriver == None && w.tables == tables && w.states == states
      ensures w.log == old(w.log) + Dropping(old(privateDriver).value, old(w.tables)[old(privateDriver).value])
    {
      hide TempsCounted, TablesCounted, StatesCounted, CallbacksCounted;
      w.DropTable(privateDriver.value);
      privateDriver := None;
    }

    /** Whatever the handle still holds is freed, and the handle is zero again. */
    method Release(ok: bool) returns (status: Status)
      requires Valid()
      modifies this, w
      ensures Valid() && privateData == Null && privateDriver == None && old(w.log) <= w.log
      ensures status == if old(privateDriver).Some? then (if ok then OK else FROM_DRIVER)
                        else if old(privateData) == Null then INVALID_STATE else OK
      ensures old(privateDriver).None? ==>
                && w.tables == old(w.tables) && w.states == old(w.states)
                && w.log == old(w.log)
                   + (if old(privateData).TempPointer? then [FreedTemp(old(privateData).id)] else [])
                && w.temps == if old(privateData).TempPointer? then old(w.temps) - {old(privateData).id}
                   else old(w.temps)
      ensures old(privateDriver).Some? ==>
                && var t := old(privateDriver).value;
                && w.temps == old(w.temps) && w.tables == old(w.tables) - {t}
                && w.states == old(w.states) - StateOf(old(w.tables)[t])
                && w.log == old(w.log) + [DatabaseRelease(t)] + Dropping(t, old(w.tables)[t])
    {
      hide TempsCounted, TablesCounted, StatesCounted, CallbacksCounted;
      if privateDriver.None? {
        if privateData.Null? { return INVALID_STATE; }
        w.FreeTemp(privateData.id);
        privateData := Null;
        return OK;
      }
      var table := privateDriver.value;
      w.Call(DatabaseRelease(table));
      w.DropTable(table);
      privateData, privateDriver := Null, None;
      return if ok then OK else FROM_DRIVER;
    }
  }

  /** No key twice, and only kept ones. */
  predicate Delivered(keys: seq<string>, options: map<string, string>) {
    Distinct(keys) && forall i | 0 <= i < |keys| :: keys[i] in options
  }

  predicate AllTaken(options: map<string, string>, takes: (string, string) -> bool) {
    forall k | k in options :: takes(k, options[k])
  }

  /** The last key is the first one refused. */
  predicate StopsAtRefusal(keys: seq<string>, options: map<string, string>, takes: (string, string) -> bool) {
    && keys != [] && (forall i | 0 <= i < |keys| :: keys[i] in options)
    && forall i | 0 <= i < |keys| :: takes(keys[i], options[keys[i]]) == (i < |keys| - 1)
  }

  predicate Complete(keys: seq<string>, options: map<string, string>) { forall k | k in options :: k in keys }
}
