/** Connection handles, what handles keep before Init, and what drivers are told. */
module ManagerSession {
  import opened DriverManager
  import opened Wrappers

  class Connection {
    const w: World
    var privateData: Data
    var privateDriver: Option<nat>

    /** A zeroed handle. */
    constructor (w: World)
      ensures this.w == w && privateData == Null && privateDriver == None
    {
      this.w, privateData, privateDriver := w, Null, None;
    }

    ghost predicate Valid()
      reads this, w
    {
      && w.Valid()
      && match privateDriver
         case None => privateData.Null? || (privateData.TempPointer? && privateData.id in w.temps)
         case Some(t) => !privateData.TempPointer? && t in w.tables
    }

    method New() returns (status: Status)
      requires Valid() && privateData == Null && privateDriver == None
      modifies this, w`temps, w`nextTemp
      ensures Valid() && status == OK && privateDriver == None && privateData.TempPointer?
      ensures privateData.id !in old(w.temps) && w.temps == old(w.temps)[privateData.id := NOTHING]
    {
      var id := w.NewTemp();
      privateData, privateDriver := TempPointer(id), None;
      return OK;
    }

    /** A null handle is refused; before Init the option is kept, afterwards it is the
        driver's. */
    method SetOption(key: string, value: string, takes: bool) returns (status: Status)
      requires Valid()
      modifies w`temps, w`log
      ensures Valid()
      ensures status == INVALID_STATE <==> privateData == Null
      ensures privateData == Null ==> w.temps == old(w.temps) && w.log == old(w.log)
      ensures privateData.TempPointer? ==>
                && w.log == old(w.log) && status == OK
                && var temp := old(w.temps)[privateData.id];
                   w.temps == old(w.temps)[privateData.id := temp.(options := temp.options[key := value])]
      ensures privateData == DriverData ==>
                && w.temps == old(w.temps) && status == (if takes then OK else FROM_DRIVER)
                && w.log == old(w.log) + [ConnectionSetOption(privateDriver.value, key, value)]
    {
      if privateData.Null? { return INVALID_STATE; }
      if privateDriver.None? {
        var args := privateData.id;
        w.UpdateTemp(args, w.temps[args].(options := w.temps[args].options[key := value]));
        return OK;
      }
      w.Call(ConnectionSetOption(privateDriver.value, key, value));
      return if takes then OK else FROM_DRIVER;
    }

    /** Init against a database.  The kept options are freed before the driver is called at
        all, so no path loses them; the handle stays well-typed unless the driver's New
        fails and yet sets private_data. */
    method Init(database: Database, b: Behaviour) returns (status: Status, ghost keys: seq<string>)
      requires Valid() && database.Valid() && database.w == w && privateDriver == None
      modifies this, w`temps, w`log
      ensures w.Valid() && old(w.log) <= w.log
      ensures Valid() <==> !(old(privateData) != Null && database.privateDriver.Some? && !b.newOk && b.newSetsData)
      ensures status == INVALID_STATE <==> old(privateData) == Null
      ensures status == INVALID_ARGUMENT <==> old(privateData) != Null && database.privateDriver.None?
      ensures status == INVALID_STATE || status == INVALID_ARGUMENT ==>
                && privateData == old(privateData) && privateDriver == None
                && w.temps == old(w.temps) && w.log == old(w.log)
      ensures status == OK || status == FROM_DRIVER ==>
                && w.temps == old(w.temps) - {old(privateData).id}
                && privateData == (if b.newSetsData then DriverData else Null)
                && privateDriver == (if b.newOk then database.privateDriver else None)
      ensures status == OK ==> privateDriver.Some? && Complete(keys, old(w.temps)[old(privateData).id].options)
      ensures status == OK || status == FROM_DRIVER ==>
                && var (t, options) := (database.privateDriver.value, old(w.temps)[old(privateData).id].options);
                && (b.newOk ==> Delivered(keys, options))
                && (b.newOk && !AllTaken(options, b.takes) ==> StopsAtRefusal(keys, options, b.takes))
                && (status == OK <==> b.newOk && AllTaken(options, b.takes) && b.initOk)
                && w.log == old(w.log) + [FreedTemp(old(privateData).id)] + ConnectLog(b, t, keys, options)
    {
      hide TempsCounted, TablesCounted, StatesCounted, CallbacksCounted;
      hide Replay, Delivered, Complete, AllTaken, StopsAtRefusal;
      keys := [];
      if privateData.Null? { return INVALID_STATE, keys; }
      if database.privateDriver.None? { return INVALID_ARGUMENT, keys; }
      var args := privateData.id;
      var options := w.temps[args].options;
      privateData := Null;
      w.FreeTemp(args);

      var table := database.privateDriver.value;
      w.Call(ConnectionNew(table));
      if b.newSetsData { privateData := DriverData; }
      if !b.newOk { return FROM_DRIVER, keys; }
      privateDriver := Some(table);
      var taken;
      taken, keys := w.ReplayOptions(OfConnection, table, options, b.takes);
      if !taken { return FROM_DRIVER, keys; }
      w.Call(ConnectionInit(table));
      return if b.initOk then OK else FROM_DRIVER, keys;
    }

    /** Unlike a database, a released connection keeps the pointer the driver left in it:
        the handle is well-typed exactly when that is null. */
    method Release(ok: bool, clears: bool) returns (status: Status)
      requires Valid()
      modifies this, w`temps, w`log
      ensures w.Valid() && privateDriver == None && old(w.log) <= w.log
      ensures Valid() <==> !(old(privateData) == DriverData && !clears)
      ensures privateData == if old(privateData) == DriverData && !clears then DriverData else Null
      ensures status == if old(privateDriver).Some? then (if ok then OK else FROM_DRIVER)
                        else if old(privateData) == Null then INVALID_STATE else OK
      ensures w.log == old(w.log)
                       + if old(privateDriver).Some? then [ConnectionRelease(old(privateDriver).value)]
                         else if old(privateData).TempPointer? then [FreedTemp(old(privateData).id)] else []
      ensures w.temps == if old(privateData).TempPointer? then old(w.temps) - {old(privateData).id} else old(w.temps)
    {
      hide TempsCounted, TablesCounted, StatesCounted, CallbacksCounted;
      if privateDriver.None? {
        if privateData.Null? { return INVALID_STATE; }
        w.FreeTemp(privateData.id);
        privateData := Null;
        return OK;
      }
      w.Call(ConnectionRelease(privateDriver.value));
      if clears { privateData := Null; }
      privateDriver := None;
      return if ok then OK else FROM_DRIVER;
    }
  }

  /** What a driver is told at the Init of a connection: the options, up to the first that is
      refused, and Init if none is. */
  function ConnectLog(b: Behaviour, table: nat, keys: seq<string>, options: map<string, string>): seq<Event>
    requires b.newOk ==> Delivered(keys, options)
  {
    [ConnectionNew(table)]
    + if !b.newOk then []
      else Replay(OfConnection, table, keys, options) + if AllTaken(options, b.takes) then [ConnectionInit(table)]
          else []
  }

  // ---------------------------------------------------------------------
  // Kept options
  // ---------------------------------------------------------------------

  /** What an application does to a handle before Init. */
  datatype Write = Wrote(key: string, value: string) | Hooked

  type Writes = seq<Write>

  /** What a handle keeps after a series of writes. */
  function Written(owner: Owner, writes: Writes): Temp {
    if writes == [] then NOTHING
    else
      var (before, last) := (Written(owner, writes[..|writes| - 1]), writes[|writes| - 1]);
      match last
      case Hooked => before.(initFunc := true)
      case Wrote(key, value) =>
        if owner == OfDatabase then before.Set(key, value) else before.(options := before.options[key := value])
  }

  /** The last value written to a key, if any. */
  function LastValue(writes: Writes, key: string): Option<string> {
    if writes == [] then None
    else
      var last := writes[|writes| - 1];
      if last.Wrote? && last.key == key then Some(last.value) else LastValue(writes[..|writes| - 1], key)
  }

  /** Two keys of a database are addressed to the manager itself. */
  predicate ForManager(owner: Owner, key: string) {
    owner == OfDatabase && (key == "driver" || key == "entrypoint")
  }

  /** A key is kept for the driver exactly when it was written and is not one of the
      manager's own, and what is kept is the last value written. */
  lemma {:induction false} LastWriteWins(owner: Owner, writes: Writes, key: string)
    ensures var options := Written(owner, writes).options;
            && (key in options <==> LastValue(writes, key).Some? && !ForManager(owner, key))
            && (key in options ==> options[key] == LastValue(writes, key).value)
  {
    if writes != [] { LastWriteWins(owner, writes[..|writes| - 1], key); }
  }

  function OrEmpty(value: Option<string>): string {
    match value case None => "" case Some(s) => s
  }

  /** The driver to load: the function that was set, or else the library and the symbol that
      were named last. */
  function Chosen(writes: Writes): Source {
    if Hooked in writes then ByInitFunc
    else ByName(OrEmpty(LastValue(writes, "driver")), OrEmpty(LastValue(writes, "entrypoint")))
  }

  /** What is kept for the manager itself are the last values of its own keys, and whether a
      function was set. */
  lemma {:induction false} ManagerKeysKept(writes: Writes)
    ensures var temp := Written(OfDatabase, writes);
            && temp.driver == OrEmpty(LastValue(writes, "driver"))
            && temp.entrypoint == OrEmpty(LastValue(writes, "entrypoint"))
            && (temp.initFunc <==> Hooked in writes)
            && SourceOf(temp) == Chosen(writes)
  {
    if writes != [] {
      var n := |writes| - 1;
      ManagerKeysKept(writes[..n]);
      assert writes == writes[..n] + [writes[n]];
    }
  }

  // ---------------------------------------------------------------------
  // What a driver is told
  // ---------------------------------------------------------------------

  /** A successful Init: what had been written to the handle, the order in which the keys
      were delivered, and where in the log the driver's New stands. */
  datatype Handshake = Handshake(owner: Owner, table: nat, temp: nat, writes: Writes, keys: seq<string>, from: nat)

  predicate ToldOnce(h: Handshake) {
    && Distinct(h.keys)
    && forall i | 0 <= i < |h.keys| :: LastValue(h.writes, h.keys[i]).Some? && !ForManager(h.owner, h.keys[i])
  }

  predicate ToldAll(h: Handshake) {
    forall i | 0 <= i < |h.writes| && h.writes[i].Wrote? && !ForManager(h.owner, h.writes[i].key) ::
      h.writes[i].key in h.keys
  }

  /** One option call per key, with the last value written to it. */
  function Told(h: Handshake): seq<Event>
    requires ToldOnce(h)
  {
    seq(|h.keys|, i requires 0 <= i < |h.keys| =>
        var (key, value) := (h.keys[i], LastValue(h.writes, h.keys[i]).value);
        match h.owner
        case OfDatabase => DatabaseSetOption(h.table, key, value)
        case OfConnection => ConnectionSetOption(h.table, key, value))
  }

  /** Everything from loading the driver of a database, or the New of a connection, to its
      Init. */
  function Greeting(h: Handshake): seq<Event>
    requires ToldOnce(h)
  {
    if h.owner == OfDatabase then
      [Loading(h.table, Chosen(h.writes)), DatabaseNew(h.table)] + Told(h) + [FreedTemp(h.temp), DatabaseInit(h.table)]
    else [ConnectionNew(h.table)] + Told(h) + [ConnectionInit(h.table)]
  }

  /** The log has this greeting: the driver that was chosen last was loaded, and between New
      and Init it received each written key that is not the manager's exactly once, with its
      last value. */
  predicate Happened(log: seq<Event>, h: Handshake) {
    && ToldOnce(h) && ToldAll(h)
    && h.from + |Greeting(h)| <= |log| && log[h.from..h.from + |Greeting(h)|] == Greeting(h)
  }

  lemma HappenedLater(log: seq<Event>, later: seq<Event>, h: Handshake)
    requires Happened(log, h) && log <= later
    ensures Happened(later, h)
  {
    var to := h.from + |Greeting(h)|;
    assert later[..|log|] == log;
    assert later[h.from..to] == log[h.from..to];
  }

  lemma {:induction false} LastValueIfWritten(writes: Writes, i: nat)
    requires i < |writes| && writes[i].Wrote?
    ensures LastValue(writes, writes[i].key).Some?
  {
    if i < |writes| - 1 { LastValueIfWritten(writes[..|writes| - 1], i); }
  }

  /** Replaying the kept options tells the driver exactly the last writes. */
  lemma {:induction false} ReplayTells(h: Handshake, options: map<string, string>)
    requires options == Written(h.owner, h.writes).options
    requires Delivered(h.keys, options) && Complete(h.keys, options)
    ensures ToldOnce(h) && ToldAll(h) && Told(h) == Replay(h.owner, h.table, h.keys, options)
  {
    forall i | 0 <= i < |h.keys| ensures LastValue(h.writes, h.keys[i]).Some? && !ForManager(h.owner, h.keys[i])
      ensures LastValue(h.writes, h.keys[i]).value == options[h.keys[i]]
    {
      LastWriteWins(h.owner, h.writes, h.keys[i]);
    }
    forall i | 0 <= i < |h.writes| && h.writes[i].Wrote? && !ForManager(h.owner, h.writes[i].key)
      ensures h.writes[i].key in h.keys
    {
      LastValueIfWritten(h.writes, i);
      LastWriteWins(h.owner, h.writes, h.writes[i].key);
    }
  }

  /** The tail of a log is where it was appended. */
  lemma Appended(log: seq<Event>, tail: seq<Event>, whole: seq<Event>)
    requires whole == log + tail
    ensures whole[|log|..|log| + |tail|] == tail
  {
  }
}
