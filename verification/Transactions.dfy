/** The Flight SQL connection's autocommit switch and its one open transaction. */
module Transactions {
  import opened Wrappers

  // ---------------------------------------------------------------------
  // What the server sees
  // ---------------------------------------------------------------------

  /** Calls that reached the server: transactions begun and ended, and statements with the
      transaction they were sent under. */
  datatype Event = Began(id: nat) | Ended(id: nat, commit: bool) | Ran(route: Option<nat>, query: string)

  type Log = seq<Event>

  /** The transaction left open. */
  function OpenAfter(log: Log): Option<nat> {
    if log == [] then None
    else
      match log[|log| - 1]
      case Began(id) => Some(id)
      case Ended(_, _) => None
      case Ran(_, _) => OpenAfter(log[..|log| - 1])
  }

  function Begun(log: Log): nat {
    if log == [] then 0 else Begun(log[..|log| - 1]) + if log[|log| - 1].Began? then 1 else 0
  }

  function EndedCount(log: Log): nat {
    if log == [] then 0 else EndedCount(log[..|log| - 1]) + if log[|log| - 1].Ended? then 1 else 0
  }

  /** How often one transaction was ended. */
  function Ends(log: Log, id: nat): nat {
    if log == [] then 0
    else Ends(log[..|log| - 1], id) + if log[|log| - 1].Ended? && log[|log| - 1].id == id then 1 else 0
  }

  /** Every transaction begins under a new name while none is open, only the open one is
      ended, and every statement runs in the open one or, if none is, outside any. */
  predicate Disciplined(log: Log) {
    log == [] ||
    var (before, last) := (log[..|log| - 1], log[|log| - 1]);
    && Disciplined(before)
    && match last
       case Began(id) => OpenAfter(before) == None && id == Begun(before)
       case Ended(id, _) => OpenAfter(before) == Some(id)
       case Ran(route, _) => route == OpenAfter(before)
  }

  /** Begun minus ended is one while a transaction is open and zero otherwise. */
  lemma {:induction false} Conservation(log: Log)
    requires Disciplined(log)
    ensures Begun(log) == EndedCount(log) + if OpenAfter(log).Some? then 1 else 0
  {
    if log != [] { Conservation(log[..|log| - 1]); }
  }

  /** Every transaction begun, but the open one, was ended once; the open one never. */
  lemma {:induction false} EndedOnce(log: Log, id: nat)
    requires Disciplined(log)
    ensures OpenAfter(log).Some? ==> OpenAfter(log).value < Begun(log)
    ensures Ends(log, id) == if id < Begun(log) && OpenAfter(log) != Some(id) then 1 else 0
  {
    if log != [] { EndedOnce(log[..|log| - 1], id); }
  }

  /** Every statement of a disciplined log ran in the transaction open at its time. */
  lemma {:induction false} RoutedThroughOpen(log: Log, k: nat)
    requires Disciplined(log) && k < |log| && log[k].Ran?
    ensures log[k].route == OpenAfter(log[..k])
  {
    if k < |log| - 1 {
      RoutedThroughOpen(log[..|log| - 1], k);
      assert log[..|log| - 1][..k] == log[..k];
    }
  }

  /** The statements the server saw. */
  function Statements(log: Log): seq<string> {
    if log == [] then []
    else Statements(log[..|log| - 1]) + if log[|log| - 1].Ran? then [log[|log| - 1].query] else []
  }

  lemma {:induction false} StatementsAppend(log: Log, more: Log)
    ensures Statements(log + more) == Statements(log) + Statements(more)
  {
    if more == [] { assert log + more == log; } else {
      var n := |more| - 1;
      StatementsAppend(log, more[..n]);
      assert (log + more)[..|log| + n] == log + more[..n];
    }
  }

  lemma {:induction false} NothingRun(log: Log)
    requires forall k | 0 <= k < |log| :: !log[k].Ran?
    ensures Statements(log) == []
  {
    if log != [] { NothingRun(log[..|log| - 1]); }
  }

  /** What one more event does to a disciplined log. */
  lemma {:induction false} OneMore(log: Log, e: Event)
    requires Disciplined(log)
    ensures e.Began? && OpenAfter(log) == None && e.id == Begun(log) ==>
              Disciplined(log + [e]) && OpenAfter(log + [e]) == Some(e.id)
    ensures e.Ended? && OpenAfter(log) == Some(e.id) ==>
              Disciplined(log + [e]) && OpenAfter(log + [e]) == None && Begun(log + [e]) == Begun(log)
    ensures e.Ran? && e.route == OpenAfter(log) ==>
              Disciplined(log + [e]) && OpenAfter(log + [e]) == OpenAfter(log)
  {
    assert (log + [e])[..|log|] == log;
  }

  // ---------------------------------------------------------------------
  // The connection
  // ---------------------------------------------------------------------

  datatype Status = OK | INVALID_ARGUMENT | INVALID_STATE | NO_TRANSACTION_SUPPORT | IO

  const ENABLED := "true"
  const DISABLED := "false"

  /** The server's side.  Each call may fail, as `ok` says; a call that fails has no
      effect, and a failed BeginTransaction hands back no transaction. */
  class Server {
    var log: Log

    constructor ()
      ensures log == []
    {
      log := [];
    }

    method BeginTransaction(ok: bool) returns (txn: Option<nat>)
      modifies this
      ensures txn == if ok then Some(Begun(old(log))) else None
      ensures log == if ok then old(log) + [Began(Begun(old(log)))] else old(log)
    {
      if !ok { return None; }
      txn := Some(Begun(log));
      log := log + [Began(txn.value)];
    }

    method EndTransaction(id: nat, commit: bool, ok: bool)
      modifies this
      ensures log == if ok then old(log) + [Ended(id, commit)] else old(log)
    {
      if ok { log := log + [Ended(id, commit)]; }
    }

    method Execute(route: Option<nat>, query: string)
      modifies this
      ensures log == old(log) + [Ran(route, query)]
    {
      log := log + [Ran(route, query)];
    }
  }

  /** Ending the open transaction, if any, and beginning the next one: a failure stops
      there. */
  function Traffic(txn: Option<nat>, id: nat, commit: bool, endOk: bool, beginOk: bool): Log {
    if txn.None? then if beginOk then [Began(id)] else []
    else if !endOk then []
    else [Ended(txn.value, commit)] + if beginOk then [Began(id)] else []
  }

  lemma {:induction false} TrafficRunsNothing(txn: Option<nat>, id: nat, commit: bool, endOk: bool, beginOk: bool)
    ensures Statements(Traffic(txn, id, commit, endOk, beginOk)) == []
  {
    NothingRun(Traffic(txn, id, commit, endOk, beginOk));
  }

  class Connection {
    const transactions: bool
    const cl: Server
    var txn: Option<nat>

    constructor (transactions: bool, cl: Server)
      requires cl.log == []
      ensures Valid() && this.transactions == transactions && this.cl == cl && txn == None
    {
      this.transactions, this.cl, txn := transactions, cl, None;
    }

    /** The connection holds exactly the transaction that is open on the server. */
    ghost predicate Valid()
      reads this, cl
    {
      && Disciplined(cl.log)
      && txn == OpenAfter(cl.log)
      && (txn.Some? ==> transactions)
    }

    /** End the open transaction, then begin the next one. */
    method Renew(commit: bool, endOk: bool, beginOk: bool) returns (status: Status)
      requires Valid() && txn.Some?
      modifies this`txn, cl
      ensures Valid()
      ensures status == if endOk && beginOk then OK else IO
      ensures cl.log == old(cl.log) + Traffic(old(txn), Begun(old(cl.log)), commit, endOk, beginOk)
    {
      hide Disciplined, OpenAfter, Begun;
      ghost var before := cl.log;
      OneMore(before, Ended(txn.value, commit));
      cl.EndTransaction(txn.value, commit, endOk);
      if !endOk { return IO; }
      ghost var ended := cl.log;
      txn := cl.BeginTransaction(beginOk);
      OneMore(ended, Began(Begun(ended)));
      status := if beginOk then OK else IO;
    }

    method SetAutocommit(value: string, endOk: bool, beginOk: bool) returns (status: Status)
      requires Valid()
      modifies this`txn, cl
      ensures Valid()
      ensures status == INVALID_ARGUMENT <==> value != ENABLED && value != DISABLED
      ensures status == NO_TRANSACTION_SUPPORT <==> value == DISABLED && !transactions
      ensures status != INVALID_STATE
      ensures value == ENABLED && old(txn).None? ==> status == OK && cl.log == old(cl.log)
      ensures status == OK <==>
                || (value == ENABLED && (old(txn).Some? ==> endOk))
                || (value == DISABLED && transactions && (old(txn).Some? ==> endOk) && beginOk)
      ensures status == OK ==> txn.Some? == (value == DISABLED)
      ensures cl.log == old(cl.log) + if status == INVALID_ARGUMENT || status == NO_TRANSACTION_SUPPORT then []
                                      else Traffic(old(txn), Begun(old(cl.log)), true, endOk,
                                                   beginOk && value == DISABLED)
    {
      hide Disciplined, OpenAfter, Begun;
      if value != ENABLED && value != DISABLED { return INVALID_ARGUMENT; }
      var autocommit := value == ENABLED;
      if autocommit && txn.None? { return OK; }
      if !transactions { return NO_TRANSACTION_SUPPORT; }
      ghost var before := cl.log;
      if txn.Some? {
        OneMore(before, Ended(txn.value, true));
        cl.EndTransaction(txn.value, true, endOk);
        if !endOk { return IO; }
      }
      if autocommit {
        txn := None;
        return OK;
      }
      ghost var ended := cl.log;
      txn := cl.BeginTransaction(beginOk);
      OneMore(ended, Began(Begun(ended)));
      status := if beginOk then OK else IO;
    }

    /** The check for support behind the check for an open transaction never fires. */
    method Commit(endOk: bool, beginOk: bool) returns (status: Status)
      requires Valid()
      modifies this`txn, cl
      ensures Valid() && status != NO_TRANSACTION_SUPPORT
      ensures status == INVALID_STATE <==> old(txn).None?
      ensures cl.log == old(cl.log) + if old(txn).None? then []
                else Traffic(old(txn), Begun(old(cl.log)), true, endOk, beginOk)
      ensures old(txn).Some? ==> status == if endOk && beginOk then OK else IO
    {
      if txn.None? { return INVALID_STATE; }
      if !transactions { return NO_TRANSACTION_SUPPORT; }
      status := Renew(true, endOk, beginOk);
    }

    method Rollback(endOk: bool, beginOk: bool) returns (status: Status)
      requires Valid()
      modifies this`txn, cl
      ensures Valid() && status != NO_TRANSACTION_SUPPORT
      ensures status == INVALID_STATE <==> old(txn).None?
      ensures cl.log == old(cl.log) + if old(txn).None? then []
                else Traffic(old(txn), Begun(old(cl.log)), false, endOk, beginOk)
      ensures old(txn).Some? ==> status == if endOk && beginOk then OK else IO
    {
      if txn.None? { return INVALID_STATE; }
      if !transactions { return NO_TRANSACTION_SUPPORT; }
      status := Renew(false, endOk, beginOk);
    }

    /** Statements, updates, Substrait plans and preparations are dispatched alike. */
    method Execute(query: string)
      requires Valid()
      modifies cl
      ensures Valid() && cl.log == old(cl.log) + [Ran(OpenAfter(old(cl.log)), query)]
    {
      hide Disciplined, OpenAfter, Begun;
      OneMore(cl.log, Ran(txn, query));
      if txn.Some? { cl.Execute(txn, query); } else { cl.Execute(None, query); }
    }
  }

  // ---------------------------------------------------------------------
  // Every sequence of calls
  // ---------------------------------------------------------------------

  datatype Call =
    | SetAutocommit(value: string, endOk: bool, beginOk: bool)
    | Commit(endOk: bool, beginOk: bool)
    | Rollback(endOk: bool, beginOk: bool)
    | Execute(query: string)

  /** What a session has come to: whether a transaction is held, which way each transaction
      ended, the statements that took effect, and those waiting for the open transaction. */
  datatype Account = Account(held: bool, endings: seq<bool>, durable: seq<string>, pending: seq<string>)

  const OPENING := Account(false, [], [], [])

  /** As the server's log shows it. */
  function Observed(log: Log): Account {
    if log == [] then OPENING
    else
      var (a, last) := (Observed(log[..|log| - 1]), log[|log| - 1]);
      match last
      case Began(_) => a.(held := true)
      case Ended(_, true) => Account(false, a.endings + [true], a.durable + a.pending, [])
      case Ended(_, false) => Account(false, a.endings + [false], a.durable, [])
      case Ran(Some(_), query) => a.(pending := a.pending + [query])
      case Ran(None, query) => a.(durable := a.durable + [query])
  }

  /** As the application's calls mean it: turning autocommit on or off and Commit make the
      waiting statements permanent, Rollback drops them, and a call that the server fails to
      carry out changes nothing; a statement waits exactly while a transaction is held. */
  function Follow(transactions: bool, a: Account, call: Call): Account {
    match call
    case SetAutocommit(value, endOk, beginOk) =>
      if (value != ENABLED && value != DISABLED) || (value == DISABLED && !transactions) || (a.held && !endOk) then a
      else Account(value == DISABLED && beginOk, if a.held then a.endings + [true] else a.endings,
                   a.durable + a.pending, [])
    case Commit(endOk, beginOk) =>
      if a.held && endOk then Account(beginOk, a.endings + [true], a.durable + a.pending, []) else a
    case Rollback(endOk, beginOk) =>
      if a.held && endOk then Account(beginOk, a.endings + [false], a.durable, []) else a
    case Execute(query) =>
      if a.held then a.(pending := a.pending + [query]) else a.(durable := a.durable + [query])
  }

  function Meant(transactions: bool, calls: seq<Call>): Account {
    if calls == [] then OPENING
    else Follow(transactions, Meant(transactions, calls[..|calls| - 1]), calls[|calls| - 1])
  }

  /** What a call reports, given whether a transaction is held. */
  function StatusOf(transactions: bool, held: bool, call: Call): Status {
    match call
    case SetAutocommit(value, endOk, beginOk) =>
      if value != ENABLED && value != DISABLED then INVALID_ARGUMENT
      else if value == DISABLED && !transactions then NO_TRANSACTION_SUPPORT
      else if (held ==> endOk) && (value == DISABLED ==> beginOk) then OK
      else IO
    case Commit(endOk, beginOk) => if !held then INVALID_STATE else if endOk && beginOk then OK else IO
    case Rollback(endOk, beginOk) => if !held then INVALID_STATE else if endOk && beginOk then OK else IO
    case Execute(_) => OK
  }

  /** On a disciplined log only an open transaction has statements waiting. */
  lemma {:induction false} ObservedHeld(log: Log)
    requires Disciplined(log)
    ensures Observed(log).held == OpenAfter(log).Some? && (OpenAfter(log).None? ==> Observed(log).pending == [])
  {
    if log != [] { ObservedHeld(log[..|log| - 1]); }
  }

  lemma ObservedNext(log: Log, e: Event)
    ensures Observed(log + [e]) ==
            var a := Observed(log);
            match e
            case Began(_) => a.(held := true)
            case Ended(_, commit) =>
              Account(false, a.endings + [commit], if commit then a.durable + a.pending else a.durable, [])
            case Ran(route, query) =>
              if route.Some? then a.(pending := a.pending + [query]) else a.(durable := a.durable + [query])
  {
    assert (log + [e])[..|log|] == log;
  }

  /** Ending and beginning, as the server's log shows it. */
  lemma {:induction false} TrafficObserved(log: Log, id: nat, commit: bool, endOk: bool, beginOk: bool)
    requires Disciplined(log)
    ensures var (a, txn) := (Observed(log), OpenAfter(log));
            Observed(log + Traffic(txn, id, commit, endOk, beginOk)) ==
            if !a.held then a.(held := beginOk)
            else if !endOk then a
            else Account(beginOk, a.endings + [commit], if commit then a.durable + a.pending else a.durable, [])
  {
    hide Disciplined, OpenAfter;
    ObservedHeld(log);
    var txn := OpenAfter(log);
    var ended := if txn.Some? && endOk then log + [Ended(txn.value, commit)] else log;
    if txn.Some? && endOk { ObservedNext(log, Ended(txn.value, commit)); }
    ObservedNext(ended, Began(id));
    var done := if (txn.Some? ==> endOk) && beginOk then ended + [Began(id)] else ended;
    assert log + Traffic(txn, id, commit, endOk, beginOk) == done;
  }

  /** The statements asked for. */
  function Queries(calls: seq<Call>): seq<string> {
    if calls == [] then []
    else Queries(calls[..|calls| - 1]) + if calls[|calls| - 1].Execute? then [calls[|calls| - 1].query] else []
  }

  /** One call of a session: the log grows by it, and by the statement it runs if it runs
      one. */
  method Perform(conn: Connection, call: Call) returns (status: Status)
    requires conn.Valid()
    modifies conn`txn, conn.cl
    ensures conn.Valid()
    ensures Statements(conn.cl.log) == Statements(old(conn.cl.log)) + if call.Execute? then [call.query] else []
    ensures Observed(conn.cl.log) == Follow(conn.transactions, Observed(old(conn.cl.log)), call)
    ensures status == StatusOf(conn.transactions, old(conn.txn).Some?, call)
  {
    hide Disciplined, OpenAfter, Begun, Observed, Traffic;
    ObservedHeld(conn.cl.log);
    assert conn.cl.log + [] == conn.cl.log;
    ghost var log, txn, id := conn.cl.log, conn.txn, Begun(conn.cl.log);
    status := OK;
    match call {
      case SetAutocommit(value, endOk, beginOk) =>
        status := conn.SetAutocommit(value, endOk, beginOk);
        TrafficRunsNothing(txn, id, true, endOk, beginOk && value == DISABLED);
        TrafficObserved(log, id, true, endOk, beginOk && value == DISABLED);
        StatementsAppend(log, Traffic(txn, id, true, endOk, beginOk && value == DISABLED));
      case Commit(endOk, beginOk) =>
        status := conn.Commit(endOk, beginOk);
        TrafficRunsNothing(txn, id, true, endOk, beginOk);
        TrafficObserved(log, id, true, endOk, beginOk);
        StatementsAppend(log, Traffic(txn, id, true, endOk, beginOk));
      case Rollback(endOk, beginOk) =>
        status := conn.Rollback(endOk, beginOk);
        TrafficRunsNothing(txn, id, false, endOk, beginOk);
        TrafficObserved(log, id, false, endOk, beginOk);
        StatementsAppend(log, Traffic(txn, id, false, endOk, beginOk));
      case Execute(query) =>
        conn.Execute(query);
        ObservedNext(log, Ran(txn, query));
        assert conn.cl.log[..|log|] == log;
    }
  }

  /** The server's log shows what the calls mean, and exactly the statements asked for. */
  predicate AsMeant(transactions: bool, calls: seq<Call>, log: Log) {
    Observed(log) == Meant(transactions, calls) && Statements(log) == Queries(calls)
  }

  /** Every status so far is the one due. */
  predicate AllDue(transactions: bool, calls: seq<Call>, statuses: seq<Status>) {
    && |statuses| <= |calls|
    && forall k | 0 <= k < |statuses| ::
         statuses[k] == StatusOf(transactions, Meant(transactions, calls[..k]).held, calls[k])
  }

  lemma {:induction false} OneMoreCall(
    transactions: bool, calls: seq<Call>, i: nat, log: Log, after: Log, statuses: seq<Status>, status: Status)
    requires i < |calls| && AsMeant(transactions, calls[..i], log) && |statuses| == i
    requires Observed(after) == Follow(transactions, Observed(log), calls[i])
    requires Statements(after) == Statements(log) + if calls[i].Execute? then [calls[i].query] else []
    requires AllDue(transactions, calls, statuses) && status == StatusOf(transactions, Observed(log).held, calls[i])
    ensures AsMeant(transactions, calls[..i + 1], after) && AllDue(transactions, calls, statuses + [status])
  {
    hide Follow, StatusOf;
    assert calls[..i + 1][..i] == calls[..i];
  }

  /** Whatever is called, in whatever order, and whichever calls to the server fail: the
      server's log is disciplined and its open transaction is the connection's, so begun
      minus ended is one exactly while the connection holds a transaction; the server saw
      exactly the statements asked for, in order, each in the transaction open at its time
      or, if none was, outside any; the transactions ended, the statements took effect and
      the calls reported, as the calls mean it. */
  method Session(transactions: bool, calls: seq<Call>) returns (conn: Connection, statuses: seq<Status>)
    ensures conn.Valid() && conn.transactions == transactions && |statuses| == |calls|
    ensures Begun(conn.cl.log) - EndedCount(conn.cl.log) == if conn.txn.Some? then 1 else 0
    ensures forall k | 0 <= k < |conn.cl.log| && conn.cl.log[k].Ran? ::
              conn.cl.log[k].route == OpenAfter(conn.cl.log[..k])
    ensures AsMeant(transactions, calls, conn.cl.log) && conn.txn.Some? == Meant(transactions, calls).held
    ensures AllDue(transactions, calls, statuses)
  {
    var cl := new Server();
    conn := new Connection(transactions, cl);
    statuses := RunCalls(conn, calls);
    ghost var log := conn.cl.log;
    Conservation(log);
    ObservedHeld(log);
    forall k | 0 <= k < |log| && log[k].Ran? ensures log[k].route == OpenAfter(log[..k]) { RoutedThroughOpen(log, k); }
  }

  method RunCalls(conn: Connection, calls: seq<Call>) returns (statuses: seq<Status>)
    requires conn.Valid() && conn.cl.log == []
    modifies conn`txn, conn.cl
    ensures conn.Valid() && |statuses| == |calls|
    ensures AsMeant(conn.transactions, calls, conn.cl.log) && AllDue(conn.transactions, calls, statuses)
  {
    hide Disciplined, OpenAfter, Begun, Follow, StatusOf;
    statuses := [];
    for i := 0 to |calls|
      invariant conn.Valid() && |statuses| == i
      invariant AsMeant(conn.transactions, calls[..i], conn.cl.log) && AllDue(conn.transactions, calls, statuses)
    {
      hide AsMeant, AllDue, Observed, Statements;
      ObservedHeld(conn.cl.log);
      ghost var log := conn.cl.log;
      var status := Perform(conn, calls[i]);
      OneMoreCall(conn.transactions, calls, i, log, conn.cl.log, statuses, status);
      statuses := statuses + [status];
    }
    assert calls[..|calls|] == calls;
  }
}
