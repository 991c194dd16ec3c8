/** Who owns what: any number of database and connection handles over one heap, on values. */
module Ownership {
  import opened DriverManager
  import opened Wrappers

  /** The two fields of a handle. */
  datatype Face = Face(data: Data, driver: Option<nat>)

  const ZERO := Face(Null, None)

  /** What is alive, and what the handles point to; the first `dbs` handles are databases,
      the others connections. */
  datatype Holding = Holding(temps: set<nat>, tables: map<nat, Release>, states: set<nat>, faces: seq<Face>, dbs: nat)

  predicate Holds(f: Face, id: nat) { f.data == TempPointer(id) }

  predicate Uses(f: Face, t: nat) { f.driver == Some(t) }

  predicate Pointed(h: Holding, id: nat) { exists k | 0 <= k < |h.faces| :: Holds(h.faces[k], id) }

  predicate Attached(h: Holding, t: nat) { exists k | 0 <= k < |h.faces| && k < h.dbs :: Uses(h.faces[k], t) }

  predicate Kept(h: Holding, st: nat) { exists t | t in h.tables :: st in StateOf(h.tables[t]) }

  /** Whatever is alive belongs to someone. */
  predicate Covered(h: Holding) {
    && (forall id | id in h.temps :: Pointed(h, id))
    && (forall t | t in h.tables :: Attached(h, t))
    && (forall st | st in h.states :: Kept(h, st))
  }

  /** A handle without a driver points to nothing or to kept options; one with a driver never
      points to kept options, and a connection's driver is some database's. */
  predicate FaceOk(h: Holding, k: nat)
    requires k < |h.faces|
  {
    match h.faces[k].driver
    case None => h.faces[k].data.Null? || (h.faces[k].data.TempPointer? && h.faces[k].data.id in h.temps)
    case Some(t) => !h.faces[k].data.TempPointer? && t in h.tables && StateOf(h.tables[t]) <= h.states && Attached(h, t)
  }

  predicate FacesOk(h: Holding) { forall k | 0 <= k < |h.faces| :: FaceOk(h, k) }

  /** Kept options belong to one handle, and a table to one database. */
  predicate FacesApart(h: Holding) {
    forall i, j | 0 <= i < j < |h.faces| :: Apart(h, i, j)
  }

  predicate Apart(h: Holding, i: nat, j: nat)
    requires i < j < |h.faces|
  {
    && (h.faces[i].data.TempPointer? ==> h.faces[i].data != h.faces[j].data)
    && (j < h.dbs && h.faces[i].driver.Some? ==> h.faces[i].driver != h.faces[j].driver)
  }

  /** A state belongs to one table. */
  predicate StatesApart(h: Holding) {
    forall t, u | t in h.tables && u in h.tables && t != u :: StateOf(h.tables[t]) !! StateOf(h.tables[u])
  }

  /** Everything alive is owned by exactly one handle: options by the handle that points to
      them, a function table and the manager's state for it by one database. */
  predicate Sound(h: Holding) { Covered(h) && FacesOk(h) && FacesApart(h) && StatesApart(h) }

  // ---------------------------------------------------------------------
  // What the operations do to the holding
  // ---------------------------------------------------------------------

  /** Only handle k changed. */
  predicate Only(h: Holding, g: Holding, k: nat, f: Face) {
    k < |h.faces| && g.faces == h.faces[k := f] && g.dbs == h.dbs
  }

  lemma {:induction false} StillPointed(h: Holding, g: Holding, k: nat, f: Face)
    requires Only(h, g, k, f)
    ensures forall id | Pointed(h, id) && !Holds(h.faces[k], id) :: Pointed(g, id)
    ensures f.data.TempPointer? ==> Pointed(g, f.data.id)
  {
    forall id | Pointed(h, id) && !Holds(h.faces[k], id) ensures Pointed(g, id) {
      var i :| 0 <= i < |h.faces| && Holds(h.faces[i], id);
      assert Holds(g.faces[i], id);
    }
    if f.data.TempPointer? { assert Holds(g.faces[k], f.data.id); }
  }

  lemma {:induction false} StillAttached(h: Holding, g: Holding, k: nat, f: Face)
    requires Only(h, g, k, f)
    ensures forall t | Attached(h, t) && !(k < h.dbs && Uses(h.faces[k], t)) :: Attached(g, t)
    ensures k < h.dbs && f.driver.Some? ==> Attached(g, f.driver.value)
  {
    forall t | Attached(h, t) && !(k < h.dbs && Uses(h.faces[k], t)) ensures Attached(g, t) {
      var i :| 0 <= i < |h.faces| && i < h.dbs && Uses(h.faces[i], t);
      assert Uses(g.faces[i], t);
    }
    if k < h.dbs && f.driver.Some? { assert Uses(g.faces[k], f.driver.value); }
  }

  /** The handles stay apart if k takes nothing that was already taken. */
  lemma {:induction false} StillApart(h: Holding, g: Holding, k: nat, f: Face)
    requires FacesApart(h) && Only(h, g, k, f)
    requires f.data.TempPointer? ==> !Pointed(h, f.data.id)
    requires k < h.dbs && f.driver.Some? ==> !Attached(h, f.driver.value)
    ensures FacesApart(g)
  {
    forall i, j | 0 <= i < j < |g.faces| ensures Apart(g, i, j) {
      assert Apart(h, i, j);
      assert f.data.TempPointer? ==> !Holds(h.faces[i], f.data.id) && !Holds(h.faces[j], f.data.id);
      if k < h.dbs && f.driver.Some? {
        assert i < h.dbs ==> !Uses(h.faces[i], f.driver.value);
        assert j < h.dbs ==> !Uses(h.faces[j], f.driver.value);
      }
    }
  }

  /** New: the handle points to options that nobody had. */
  lemma {:induction false} TakesTemp(h: Holding, k: nat, id: nat)
    requires Sound(h) && k < |h.faces| && h.faces[k] == ZERO && id !in h.temps
    ensures var f := Face(TempPointer(id), None); Sound(h.(faces := h.faces[k := f], temps := h.temps + {id}))
  {
    hide Pointed, Attached, Apart;
    var f := Face(TempPointer(id), None);
    var g := h.(faces := h.faces[k := f], temps := h.temps + {id});
    StillPointed(h, g, k, f);
    StillAttached(h, g, k, f);
    NotPointed(h, id);
    StillApart(h, g, k, f);
    SameTables(h, g);
    forall i | 0 <= i < |g.faces| ensures FaceOk(g, i) { assert FaceOk(h, i); }
  }

  lemma {:induction false} NotPointed(h: Holding, id: nat)
    requires FacesOk(h) && id !in h.temps
    ensures !Pointed(h, id)
  {
    forall k | 0 <= k < |h.faces| ensures !Holds(h.faces[k], id) { assert FaceOk(h, k); }
  }

  /** Tables and their states are as before. */
  lemma SameTables(h: Holding, g: Holding)
    requires g.tables == h.tables
    ensures forall st | Kept(h, st) :: Kept(g, st)
    ensures StatesApart(h) ==> StatesApart(g)
  {
  }

  /** Release before Init, or the driver's refusal: the options are gone with the pointer. */
  lemma {:induction false} DropsTemp(h: Holding, k: nat)
    requires Sound(h) && k < |h.faces| && h.faces[k].data.TempPointer? && h.faces[k].driver.None?
    ensures Sound(h.(faces := h.faces[k := ZERO], temps := h.temps - {h.faces[k].data.id}))
  {
    hide Pointed, Attached;
    var id := h.faces[k].data.id;
    var g := h.(faces := h.faces[k := ZERO], temps := h.temps - {id});
    StillPointed(h, g, k, ZERO);
    StillAttached(h, g, k, ZERO);
    StillApart(h, g, k, ZERO);
    SameTables(h, g);
    forall i | 0 <= i < |g.faces| ensures FaceOk(g, i) {
      assert FaceOk(h, i);
      if i < k { assert Apart(h, i, k); } else if k < i { assert Apart(h, k, i); }
    }
  }

  /** A database's Init: it owns a new table and its state. */
  lemma {:induction false} Attaches(h: Holding, k: nat, t: nat, r: Release, data: Data)
    requires Sound(h) && k < |h.faces| && k < h.dbs && h.faces[k] == ZERO
    requires t !in h.tables && StateOf(r) !! h.states && !data.TempPointer?
    ensures Sound(h.(faces := h.faces[k := Face(data, Some(t))], tables := h.tables[t := r], states := h.states
              + StateOf(r)))
  {
    hide Pointed, Attached, Apart;
    var f := Face(data, Some(t));
    var g := h.(faces := h.faces[k := f], tables := h.tables[t := r], states := h.states + StateOf(r));
    StillPointed(h, g, k, f);
    StillAttached(h, g, k, f);
    NotAttached(h, t);
    StillApart(h, g, k, f);
    NewTable(h, g, t, r);
    forall i | 0 <= i < |g.faces| ensures FaceOk(g, i) { assert FaceOk(h, i); }
  }

  lemma {:induction false} NotAttached(h: Holding, t: nat)
    requires FacesOk(h) && t !in h.tables
    ensures !Attached(h, t)
  {
    forall k | 0 <= k < |h.faces| ensures !Uses(h.faces[k], t) { assert FaceOk(h, k); }
  }

  lemma {:induction false} NewTable(h: Holding, g: Holding, t: nat, r: Release)
    requires Covered(h) && FacesOk(h) && StatesApart(h) && t !in h.tables && StateOf(r) !! h.states
    requires g.tables == h.tables[t := r] && g.states == h.states + StateOf(r)
    ensures StatesApart(g) && forall st | st in g.states :: Kept(g, st)
  {
    forall st | st in g.states ensures Kept(g, st) {
      if st in h.states {
        var u :| u in h.tables && st in StateOf(h.tables[u]);
        assert u in g.tables && st in StateOf(g.tables[u]);
      } else {
        assert t in g.tables && st in StateOf(g.tables[t]);
      }
    }
    forall u | u in h.tables ensures StateOf(h.tables[u]) <= h.states { TableStates(h, u); }
  }

  lemma {:induction false} TableStates(h: Holding, t: nat)
    requires Covered(h) && FacesOk(h) && t in h.tables
    ensures StateOf(h.tables[t]) <= h.states
  {
    assert Attached(h, t);
    var k :| 0 <= k < |h.faces| && k < h.dbs && Uses(h.faces[k], t);
    assert FaceOk(h, k);
  }

  /** A database's Release: its table and state are gone; no connection may still use them. */
  lemma {:induction false} Detaches(h: Holding, k: nat)
    requires Sound(h) && k < |h.faces| && k < h.dbs && h.faces[k].driver.Some?
    requires forall j | h.dbs <= j < |h.faces| :: !Uses(h.faces[j], h.faces[k].driver.value)
    ensures var t := h.faces[k].driver.value;
            && t in h.tables
            && Sound(h.(faces := h.faces[k := ZERO], tables := h.tables - {t},
               states := h.states - StateOf(h.tables[t])))
  {
    hide Pointed, Attached;
    var t := h.faces[k].driver.value;
    assert FaceOk(h, k);
    var g := h.(faces := h.faces[k := ZERO], tables := h.tables - {t}, states := h.states - StateOf(h.tables[t]));
    StillPointed(h, g, k, ZERO);
    StillAttached(h, g, k, ZERO);
    StillApart(h, g, k, ZERO);
    forall st | st in g.states ensures Kept(g, st) {
      assert Kept(h, st);
      var u :| u in h.tables && st in StateOf(h.tables[u]);
      assert u in g.tables && st in StateOf(g.tables[u]);
    }
    forall i | 0 <= i < |g.faces| ensures FaceOk(g, i) {
      assert FaceOk(h, i);
      if i != k {
        if i < k { assert Apart(h, i, k); } else { assert Apart(h, k, i); }
        assert h.faces[i].driver != Some(t);
        if h.faces[i].driver.Some? { assert StateOf(h.tables[h.faces[i].driver.value]) !! StateOf(h.tables[t]); }
      }
    }
  }

  /** A connection's Init and Release: it uses a database's table and owns nothing of it. */
  lemma {:induction false} Joins(h: Holding, k: nat, t: nat, data: Data)
    requires Sound(h) && h.dbs <= k < |h.faces| && h.faces[k] == ZERO && Attached(h, t) && !data.TempPointer?
    ensures Sound(h.(faces := h.faces[k := Face(data, Some(t))]))
  {
    hide Pointed, Attached, Apart;
    var f := Face(data, Some(t));
    var g := h.(faces := h.faces[k := f]);
    StillPointed(h, g, k, f);
    StillAttached(h, g, k, f);
    StillApart(h, g, k, f);
    SameTables(h, g);
    AttachedIsTable(h, t);
    forall i | 0 <= i < |g.faces| ensures FaceOk(g, i) { assert FaceOk(h, i); }
  }

  lemma {:induction false} AttachedIsTable(h: Holding, t: nat)
    requires FacesOk(h) && Attached(h, t)
    ensures t in h.tables && StateOf(h.tables[t]) <= h.states
  {
    var k :| 0 <= k < |h.faces| && k < h.dbs && Uses(h.faces[k], t);
    assert FaceOk(h, k);
  }

  lemma {:induction false} Leaves(h: Holding, k: nat)
    requires Sound(h) && h.dbs <= k < |h.faces| && h.faces[k].driver.Some?
    ensures Sound(h.(faces := h.faces[k := ZERO]))
  {
    hide Pointed, Attached, Apart;
    var g := h.(faces := h.faces[k := ZERO]);
    assert FaceOk(h, k);
    StillPointed(h, g, k, ZERO);
    StillAttached(h, g, k, ZERO);
    StillApart(h, g, k, ZERO);
    SameTables(h, g);
    forall i | 0 <= i < |g.faces| ensures FaceOk(g, i) { assert FaceOk(h, i); }
  }

  /** When every handle is back to zero nothing is left. */
  lemma {:induction false} NothingLeft(h: Holding)
    requires Sound(h) && forall k | 0 <= k < |h.faces| :: h.faces[k] == ZERO
    ensures h.temps == {} && h.tables == map[] && h.states == {}
  {
    assert forall id :: !Pointed(h, id);
    assert forall t :: !Attached(h, t);
    assert h.temps == {} && h.tables.Keys == {};
    assert forall st :: !Kept(h, st);
  }
}
