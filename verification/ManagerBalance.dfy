/** What drivers were asked to create and to release again, counted over a log. */
module ManagerBalance {
  import opened DriverManager
  import opened ManagerSession
  import opened Ownership
  import opened Wrappers

  /** Databases created and not yet released through a table. */
  function Opened(log: seq<Event>, t: nat): int { Times(log, DatabaseNew(t)) - Times(log, DatabaseRelease(t)) }

  /** Connections created and not yet released through a table. */
  function Joined(log: seq<Event>, t: nat): int { Times(log, ConnectionNew(t)) - Times(log, ConnectionRelease(t)) }

  function Share(f: Face, t: nat): nat { if Uses(f, t) then 1 else 0 }

  /** Connection handles that use a table; the first `dbs` handles are databases. */
  function Users(faces: seq<Face>, dbs: nat, t: nat): nat {
    if |faces| <= dbs then 0
    else Users(faces[..|faces| - 1], dbs, t) + Share(faces[|faces| - 1], t)
  }

  /** Each live table has one database that was created through it and not released, each
      other table none; each table has as many such connections as handles use it. */
  ghost predicate Balanced(log: seq<Event>, tables: set<nat>, faces: seq<Face>, dbs: nat) {
    forall t: nat :: Opened(log, t) == (if t in tables then 1 else 0) && Joined(log, t) == Users(faces, dbs, t)
  }

  /** Whatever was created in a driver was released in it. */
  ghost predicate Even(log: seq<Event>) {
    forall t: nat ::
      && Times(log, DatabaseNew(t)) == Times(log, DatabaseRelease(t))
      && Times(log, ConnectionNew(t)) == Times(log, ConnectionRelease(t))
  }

  lemma {:induction false} UsersUpdate(faces: seq<Face>, dbs: nat, k: nat, f: Face, t: nat)
    requires k < |faces|
    ensures Users(faces[k := f], dbs, t)
         == if k < dbs then Users(faces, dbs, t) else Users(faces, dbs, t) - Share(faces[k], t) + Share(f, t)
  {
    var n := |faces| - 1;
    if |faces| > dbs {
      if k < n {
        UsersUpdate(faces[..n], dbs, k, f, t);
        assert faces[k := f][..n] == faces[..n][k := f];
      } else {
        assert faces[k := f][..n] == faces[..n];
      }
    }
  }

  lemma {:induction false} NoUsers(faces: seq<Face>, dbs: nat, t: nat)
    requires forall k | 0 <= k < |faces| :: faces[k] == ZERO
    ensures Users(faces, dbs, t) == 0
  {
    if |faces| > dbs { NoUsers(faces[..|faces| - 1], dbs, t); }
  }

  lemma BalanceAppend(log: seq<Event>, more: seq<Event>, t: nat)
    ensures Opened(log + more, t) == Opened(log, t) + Opened(more, t)
    ensures Joined(log + more, t) == Joined(log, t) + Joined(more, t)
  {
    TimesAppend(log, more, DatabaseNew(t));
    TimesAppend(log, more, DatabaseRelease(t));
    TimesAppend(log, more, ConnectionNew(t));
    TimesAppend(log, more, ConnectionRelease(t));
  }

  predicate Creates(e: Event) {
    e.DatabaseNew? || e.DatabaseRelease? || e.ConnectionNew? || e.ConnectionRelease?
  }

  predicate Silent(log: seq<Event>) { forall i | 0 <= i < |log| :: !Creates(log[i]) }

  lemma SilentBalance(log: seq<Event>, t: nat)
    requires Silent(log)
    ensures Opened(log, t) == 0 && Joined(log, t) == 0
  {
    assert DatabaseNew(t) !in log && DatabaseRelease(t) !in log;
    assert ConnectionNew(t) !in log && ConnectionRelease(t) !in log;
  }

  lemma OneEvent(e: Event, t: nat)
    ensures Opened([e], t) == if e == DatabaseNew(t) then 1 else if e == DatabaseRelease(t) then -1 else 0
    ensures Joined([e], t) == if e == ConnectionNew(t) then 1 else if e == ConnectionRelease(t) then -1 else 0
  {
    TimesFew(e, DatabaseNew(t));
    TimesFew(e, DatabaseRelease(t));
    TimesFew(e, ConnectionNew(t));
    TimesFew(e, ConnectionRelease(t));
  }

  lemma DroppingIsSilent(table: nat, release: Release)
    ensures Silent(Dropping(table, release))
  {
  }

  lemma ReplayIsSilent(owner: Owner, table: nat, keys: seq<string>, options: map<string, string>)
    requires Delivered(keys, options)
    ensures Silent(Replay(owner, table, keys, options))
  {
  }

  /** Starting a database creates it for good, or not at all, or releases it again. */
  lemma {:induction false} StartBalance(
    b: Behaviour, table: nat, release: Release, temp: nat, keys: seq<string>, options: map<string, string>,
    source: Source, t: nat)
    requires b.newOk && Delivered(keys, options)
    ensures var more := [Loading(table, source)] + StartLog(b, table, release, temp, keys, options);
            Opened(more, t) == (if AllTaken(options, b.takes) && t == table then 1 else 0) && Joined(more, t) == 0
  {
    hide Opened, Joined, Dropping, Replay, AllTaken;
    var replay, dropping := Replay(OfDatabase, table, keys, options), Dropping(table, release);
    ReplayIsSilent(OfDatabase, table, keys, options);
    DroppingIsSilent(table, release);
    var start := [Loading(table, source)] + [DatabaseNew(table)];
    var middle := replay + [FreedTemp(temp)];
    var end := if AllTaken(options, b.takes) then [DatabaseInit(table)] else [DatabaseRelease(table)] + dropping;
    assert [Loading(table, source)] + StartLog(b, table, release, temp, keys, options) == start + (middle + end);
    OneEvent(Loading(table, source), t);
    OneEvent(DatabaseNew(table), t);
    BalanceAppend([Loading(table, source)], [DatabaseNew(table)], t);
    SilentBalance(middle, t);
    if AllTaken(options, b.takes) {
      OneEvent(DatabaseInit(table), t);
    } else {
      OneEvent(DatabaseRelease(table), t);
      SilentBalance(dropping, t);
      BalanceAppend([DatabaseRelease(table)], dropping, t);
    }
    BalanceAppend(middle, end, t);
    BalanceAppend(start, middle + end, t);
  }

  lemma {:induction false} EndBalance(table: nat, release: Release, t: nat)
    ensures var more := [DatabaseRelease(table)] + Dropping(table, release);
            Opened(more, t) == (if t == table then -1 else 0) && Joined(more, t) == 0
  {
    hide Opened, Joined, Dropping;
    DroppingIsSilent(table, release);
    OneEvent(DatabaseRelease(table), t);
    SilentBalance(Dropping(table, release), t);
    BalanceAppend([DatabaseRelease(table)], Dropping(table, release), t);
  }

  /** A connection is created whatever becomes of its options. */
  lemma {:induction false} ConnectBalance(
    b: Behaviour, table: nat, temp: nat, keys: seq<string>, options: map<string, string>, t: nat)
    requires b.newOk && Delivered(keys, options)
    ensures var more := [FreedTemp(temp)] + ConnectLog(b, table, keys, options);
            Opened(more, t) == 0 && Joined(more, t) == if t == table then 1 else 0
  {
    hide Opened, Joined, Replay, AllTaken;
    var replay := Replay(OfConnection, table, keys, options);
    ReplayIsSilent(OfConnection, table, keys, options);
    var start := [FreedTemp(temp)] + [ConnectionNew(table)];
    var rest := replay + if AllTaken(options, b.takes) then [ConnectionInit(table)] else [];
    assert [FreedTemp(temp)] + ConnectLog(b, table, keys, options) == start + rest;
    OneEvent(FreedTemp(temp), t);
    OneEvent(ConnectionNew(table), t);
    BalanceAppend([FreedTemp(temp)], [ConnectionNew(table)], t);
    SilentBalance(rest, t);
    BalanceAppend(start, rest, t);
  }

  /** An operation on handle k that adds `more` to the log. */
  lemma {:induction false} Rebalanced(
    log: seq<Event>, more: seq<Event>, tables: set<nat>, after: set<nat>, faces: seq<Face>, dbs: nat, k: nat, f: Face)
    requires Balanced(log, tables, faces, dbs) && k < |faces|
    requires forall t: nat ::
               && Opened(more, t) == (if t in after then 1 else 0) - (if t in tables then 1 else 0)
               && Joined(more, t) == if k < dbs then 0 else Share(f, t) - Share(faces[k], t)
    ensures Balanced(log + more, after, faces[k := f], dbs)
  {
    hide Opened, Joined, Users, Share;
    forall t: nat
      ensures Opened(log + more, t) == (if t in after then 1 else 0)
      ensures Joined(log + more, t) == Users(faces[k := f], dbs, t)
    {
      BalanceAppend(log, more, t);
      UsersUpdate(faces, dbs, k, f, t);
    }
  }

  // ---------------------------------------------------------------------
  // The operations
  // ---------------------------------------------------------------------

  /** An operation that creates and releases nothing. */
  lemma {:induction false} SilentStep(log: seq<Event>, after: seq<Event>, h: Holding, k: nat, f: Face)
    requires Balanced(log, h.tables.Keys, h.faces, h.dbs) && k < |h.faces|
    requires log <= after && Silent(after[|log|..]) && (k < h.dbs || f.driver == h.faces[k].driver)
    ensures Balanced(after, h.tables.Keys, h.faces[k := f], h.dbs)
  {
    hide Opened, Joined, Users, Balanced;
    var more := after[|log|..];
    forall t: nat ensures Opened(more, t) == 0 && Joined(more, t) == 0 { SilentBalance(more, t); }
    Rebalanced(log, more, h.tables.Keys, h.tables.Keys, h.faces, h.dbs, k, f);
    assert log + more == after;
  }

  lemma {:induction false} StartStep(
    log: seq<Event>, h: Holding, k: nat, f: Face, b: Behaviour, table: nat, release: Release, temp: nat,
    keys: seq<string>, options: map<string, string>, source: Source)
    requires Balanced(log, h.tables.Keys, h.faces, h.dbs) && k < |h.faces| && k < h.dbs && table !in h.tables
    requires b.newOk && Delivered(keys, options)
    ensures var (more, kept) := (StartLog(b, table, release, temp, keys, options), AllTaken(options, b.takes));
            Balanced(log + [Loading(table, source)] + more,
                     if kept then h.tables.Keys + {table} else h.tables.Keys, h.faces[k := f], h.dbs)
  {
    hide Opened, Joined, Users, Balanced, StartLog, AllTaken, Delivered;
    var more := [Loading(table, source)] + StartLog(b, table, release, temp, keys, options);
    var kept := AllTaken(options, b.takes);
    var after := if kept then h.tables.Keys + {table} else h.tables.Keys;
    forall t: nat ensures Opened(more, t) == (if kept && t == table then 1 else 0) && Joined(more, t) == 0 {
      StartBalance(b, table, release, temp, keys, options, source, t);
    }
    Rebalanced(log, more, h.tables.Keys, after, h.faces, h.dbs, k, f);
    assert log + more == log + [Loading(table, source)] + StartLog(b, table, release, temp, keys, options);
  }

  lemma {:induction false} EndStep(log: seq<Event>, h: Holding, k: nat, t: nat, release: Release)
    requires Balanced(log, h.tables.Keys, h.faces, h.dbs) && k < |h.faces| && k < h.dbs && t in h.tables
    ensures Balanced(log + [DatabaseRelease(t)] + Dropping(t, release), h.tables.Keys - {t}, h.faces[k := ZERO], h.dbs)
  {
    hide Opened, Joined, Users, Balanced, Dropping;
    var more := [DatabaseRelease(t)] + Dropping(t, release);
    forall u: nat ensures Opened(more, u) == (if u == t then -1 else 0) && Joined(more, u) == 0 {
      EndBalance(t, release, u);
    }
    Rebalanced(log, more, h.tables.Keys, h.tables.Keys - {t}, h.faces, h.dbs, k, ZERO);
    assert log + more == log + [DatabaseRelease(t)] + Dropping(t, release);
  }

  lemma {:induction false} ConnectStep(
    log: seq<Event>, h: Holding, k: nat, f: Face, b: Behaviour, table: nat, temp: nat,
    keys: seq<string>, options: map<string, string>)
    requires Balanced(log, h.tables.Keys, h.faces, h.dbs) && h.dbs <= k < |h.faces|
    requires h.faces[k].driver == None && f.driver == Some(table) && b.newOk && Delivered(keys, options)
    ensures Balanced(log + [FreedTemp(temp)] + ConnectLog(b, table, keys, options),
                     h.tables.Keys, h.faces[k := f], h.dbs)
  {
    hide Opened, Joined, Users, Balanced, ConnectLog, Delivered;
    var more := [FreedTemp(temp)] + ConnectLog(b, table, keys, options);
    forall t: nat ensures Opened(more, t) == 0 && Joined(more, t) == if t == table then 1 else 0 {
      ConnectBalance(b, table, temp, keys, options, t);
    }
    Rebalanced(log, more, h.tables.Keys, h.tables.Keys, h.faces, h.dbs, k, f);
    assert log + more == log + [FreedTemp(temp)] + ConnectLog(b, table, keys, options);
  }

  lemma {:induction false} LeaveStep(log: seq<Event>, h: Holding, k: nat, t: nat)
    requires Balanced(log, h.tables.Keys, h.faces, h.dbs) && h.dbs <= k < |h.faces| && h.faces[k].driver == Some(t)
    ensures Balanced(log + [ConnectionRelease(t)], h.tables.Keys, h.faces[k := ZERO], h.dbs)
  {
    hide Opened, Joined, Users, Balanced;
    forall u: nat
      ensures Opened([ConnectionRelease(t)], u) == 0 && Joined([ConnectionRelease(t)], u) == if u == t then -1 else 0
    {
      OneEvent(ConnectionRelease(t), u);
    }
    Rebalanced(log, [ConnectionRelease(t)], h.tables.Keys, h.tables.Keys, h.faces, h.dbs, k, ZERO);
  }

  /** With every handle at zero the log is even, and the other way round. */
  lemma {:induction false} EvenExactly(log: seq<Event>, h: Holding)
    requires h.tables == map[] && forall k | 0 <= k < |h.faces| :: h.faces[k] == ZERO
    ensures Balanced(log, h.tables.Keys, h.faces, h.dbs) <==> Even(log)
  {
    hide Times, Users;
    forall t: nat ensures Users(h.faces, h.dbs, t) == 0 { NoUsers(h.faces, h.dbs, t); }
    if Balanced(log, h.tables.Keys, h.faces, h.dbs) {
      forall t: nat
        ensures Times(log, DatabaseNew(t)) == Times(log, DatabaseRelease(t))
        ensures Times(log, ConnectionNew(t)) == Times(log, ConnectionRelease(t))
      {
        assert Opened(log, t) == 0 && Joined(log, t) == 0;
      }
    }
  }
}
