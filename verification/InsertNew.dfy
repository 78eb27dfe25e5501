/** Adding a batch of units to a running table. */
module InsertNew {
  import opened Units
  import opened Digraph

  // ---------- the check before inserting ----------

  ghost predicate Collides(batch: UnitTable, t: UnitTable) {
    exists a, b :: a in t && b in batch && (t[a].id == batch[b].id || t[a].id.name == batch[b].id.name)
  }

  ghost predicate RefsExist(batch: UnitTable, t: UnitTable) {
    forall u, x :: u in batch && x in batch[u].refsByName ==> x in t || x in batch
  }

  predicate CollidesWith(batch: UnitTable, u: Unit) {
    exists b :: b in batch && (u.id == batch[b].id || u.id.name == batch[b].id.name)
  }

  method CheckAllNamesExist(batch: UnitTable, t: UnitTable) returns (ok: bool)
    requires WellKeyed(batch) && WellKeyed(t)
    ensures ok <==> !Collides(batch, t) && RefsExist(batch, t)
  {
    var needed: set<UnitId> := {};
    var todo := batch.Keys;
    while todo != {}
      invariant todo <= batch.Keys
      invariant forall x :: x in needed <==> exists u :: u in batch && u !in todo && x in batch[u].refsByName
    {
      var u :| u in todo;
      needed := needed + (set x | x in batch[u].refsByName);
      todo := todo - {u};
    }
    ghost var all := needed;
    todo := t.Keys;
    while todo != {}
      invariant todo <= t.Keys
      invariant forall x :: x in needed <==> x in all && (x !in t || x in todo)
      invariant forall a :: a in t && a !in todo ==> !CollidesWith(batch, t[a])
    {
      var a :| a in todo;
      if CollidesWith(batch, t[a]) {
        return false;
      }
      needed := needed - {t[a].id};
      todo := todo - {a};
    }
    NoCollision(batch, t);
    todo := batch.Keys;
    while todo != {}
      invariant todo <= batch.Keys
      invariant forall x :: x in needed <==> x in all && x !in t && (x !in batch || x in todo)
    {
      var b :| b in todo;
      needed := needed - {batch[b].id};
      todo := todo - {b};
    }
    ok := needed == {};
    ResolvedRefs(batch, t, all, needed);
  }

  lemma NoCollision(batch: UnitTable, t: UnitTable)
    requires forall a :: a in t ==> !CollidesWith(batch, t[a])
    ensures !Collides(batch, t)
  {
  }

  lemma ResolvedRefs(batch: UnitTable, t: UnitTable, all: set<UnitId>, unresolved: set<UnitId>)
    requires forall x :: x in all <==> exists u :: u in batch && x in batch[u].refsByName
    requires forall x :: x in unresolved <==> x in all && x !in t && x !in batch
    ensures unresolved == {} <==> RefsExist(batch, t)
  {
    if unresolved == {} {
      forall u, x | u in batch && x in batch[u].refsByName ensures x in t || x in batch {
        assert x in all;
      }
    }
  }

  // ---------- inserting ----------

  /** `a` comes earlier than `b` in the order of insertion. */
  ghost predicate Earlier(order: seq<UnitId>, a: UnitId, b: UnitId) {
    exists i, j :: 0 <= i < j < |order| && order[i] == a && order[j] == b
  }

  /**
   * The edges after inserting a batch in the given order: a new unit's edge is pushed on the other side exactly
   * when the other unit is already there.
   */
  ghost predicate InsertedEdge(t: UnitTable, batch: UnitTable, order: seq<UnitId>, u: UnitId, r: Rel, v: UnitId) {
    || Has(t, u, r, v)
    || (u in order && Has(batch, u, r, v))
    || (v in order && Has(batch, v, Mirror(r), u) && (u in t || Earlier(order, u, v)))
  }

  /** The six pushes for one unit that is already in the table. */
  function PushMirrors(unit: Unit, fresh_: Unit): Unit {
    var d := unit.deps;
    var d := if unit.id in fresh_.deps.after then d.Push(Before, fresh_.id) else d;
    var d := if unit.id in fresh_.deps.before then d.Push(After, fresh_.id) else d;
    var d := if unit.id in fresh_.deps.requires_ then d.Push(RequiredBy, fresh_.id) else d;
    var d := if unit.id in fresh_.deps.wants then d.Push(WantedBy, fresh_.id) else d;
    var d := if unit.id in fresh_.deps.requiredBy then d.Push(Requires, fresh_.id) else d;
    var d := if unit.id in fresh_.deps.wantedBy then d.Push(Wants, fresh_.id) else d;
    unit.(deps := d)
  }

  lemma PushMirrorsGet(unit: Unit, fresh_: Unit, r: Rel)
    ensures PushMirrors(unit, fresh_).deps.Get(r) ==
      if unit.id in fresh_.deps.Get(Mirror(r)) then unit.deps.Get(r) + [fresh_.id] else unit.deps.Get(r)
  {
    match r {
      case Wants =>
      case WantedBy =>
      case Requires =>
      case RequiredBy =>
      case Before =>
      case After =>
    }
  }

  lemma PushMirrorsAdds(unit: Unit, fresh_: Unit)
    ensures forall r: Rel, v :: v in PushMirrors(unit, fresh_).deps.Get(r) <==>
      v in unit.deps.Get(r) || (v == fresh_.id && unit.id in fresh_.deps.Get(Mirror(r)))
  {
    hide PushMirrors;
    forall r: Rel, v ensures v in PushMirrors(unit, fresh_).deps.Get(r) <==>
      v in unit.deps.Get(r) || (v == fresh_.id && unit.id in fresh_.deps.Get(Mirror(r)))
    {
      PushMirrorsGet(unit, fresh_, r);
    }
  }

  function WithUnit(t: UnitTable, fresh_: Unit): UnitTable {
    (map u | u in t :: PushMirrors(t[u], fresh_))[fresh_.id := fresh_]
  }

  /** Push the new unit's edges on the units of the table, then put it in. */
  method InsertOne(t: UnitTable, fresh_: Unit) returns (t': UnitTable)
    requires WellKeyed(t) && fresh_.id !in t && KindMatches(fresh_.id.kind, fresh_.specific)
    ensures t' == WithUnit(t, fresh_)
    ensures WellKeyed(t') && t'.Keys == t.Keys + {fresh_.id} && t'[fresh_.id] == fresh_
    ensures forall u :: u in t ==> t'[u] == PushMirrors(t[u], fresh_)
  {
    hide PushMirrors;
    t' := t;
    var todo := t.Keys;
    while todo != {}
      invariant todo <= t.Keys && t'.Keys == t.Keys
      invariant forall u :: u in t ==> t'[u] == if u in todo then t[u] else PushMirrors(t[u], fresh_)
    {
      var u :| u in todo;
      t' := t'[u := PushMirrors(t'[u], fresh_)];
      todo := todo - {u};
    }
    PushMirrorsKeeps(t, fresh_);
    t' := t'[fresh_.id := fresh_];
  }

  lemma PushMirrorsKeeps(t: UnitTable, fresh_: Unit)
    ensures forall u :: u in t ==> (
      && PushMirrors(t[u], fresh_).id == t[u].id
      && PushMirrors(t[u], fresh_).specific == t[u].specific
      && PushMirrors(t[u], fresh_).refsByName == t[u].refsByName)
  {
  }

  ghost predicate InsertedUpTo(t: UnitTable, batch: UnitTable, order: seq<UnitId>, t': UnitTable) {
    && WellKeyed(t') && t'.Keys == t.Keys + (set u | u in order)
    && (forall u, r, v :: Has(t', u, r, v) <==> InsertedEdge(t, batch, order, u, r, v))
    && ConfFrom(t, batch, t')
  }

  /** Lists and names stay as they were in the table or came with the batch. */
  ghost predicate ConfFrom(t: UnitTable, batch: UnitTable, t': UnitTable) {
    forall u :: u in t' && (u in t || u in batch) ==>
      var was := if u in t then t[u] else batch[u];
      t'[u].specific == was.specific && t'[u].refsByName == was.refsByName
  }

  lemma InsertedUpToGrows(t: UnitTable, batch: UnitTable, order: seq<UnitId>, t': UnitTable, id: UnitId, t'': UnitTable)
    requires WellKeyed(batch) && id in batch && id !in order && id !in t && InsertedUpTo(t, batch, order, t')
    requires WellKeyed(t'') && t''.Keys == t'.Keys + {id} && t''[id] == batch[id]
    requires forall u :: u in t' ==> t''[u] == PushMirrors(t'[u], batch[id])
    ensures InsertedUpTo(t, batch, order + [id], t'')
  {
    hide Has;
    hide Earlier;
    hide PushMirrors;
    HasIsInTable(t);
    hide ConfFrom;
    ConfGrows(t, batch, t', id, t'');
    EarlierGrows(order, id);
    InsertOneEdges(t', batch, id, t'');
  }

  lemma ConfGrows(t: UnitTable, batch: UnitTable, t': UnitTable, id: UnitId, t'': UnitTable)
    requires id in batch && id !in t && ConfFrom(t, batch, t') && t''.Keys == t'.Keys + {id} && t''[id] == batch[id]
    requires forall u :: u in t' ==> t''[u] == PushMirrors(t'[u], batch[id])
    ensures ConfFrom(t, batch, t'')
  {
    PushMirrorsKeeps(t', batch[id]);
    hide PushMirrors;
  }

  lemma HasIsInTable(t: UnitTable)
    ensures forall u, r, v :: Has(t, u, r, v) ==> u in t
  {
  }

  /** What one insertion adds. */
  lemma InsertOneEdges(t': UnitTable, batch: UnitTable, id: UnitId, t'': UnitTable)
    requires WellKeyed(batch) && id in batch && id !in t' && WellKeyed(t')
    requires t''.Keys == t'.Keys + {id} && t''[id] == batch[id]
    requires forall u :: u in t' ==> t''[u] == PushMirrors(t'[u], batch[id])
    ensures forall u, r, v :: Has(t'', u, r, v) <==>
      Has(t', u, r, v) || (u == id && Has(batch, id, r, v)) || (u in t' && v == id && Has(batch, id, Mirror(r), u))
  {
    hide PushMirrors;
    forall u | u in t' ensures forall r, v :: Has(t'', u, r, v) <==>
      Has(t', u, r, v) || (v == id && Has(batch, id, Mirror(r), u))
    {
      PushMirrorsAdds(t'[u], batch[id]);
    }
  }

  lemma EarlierGrows(order: seq<UnitId>, id: UnitId)
    requires id !in order
    ensures forall a, b :: Earlier(order + [id], a, b) <==> Earlier(order, a, b) || (a in order && b == id)
    ensures forall a, b :: Earlier(order, a, b) ==> a in order && b in order
  {
    var longer := order + [id];
    forall a, b | Earlier(order, a, b) ensures Earlier(longer, a, b) {
      var i, j :| 0 <= i < j < |order| && order[i] == a && order[j] == b;
      assert longer[i] == a && longer[j] == b;
    }
    forall a | a in order ensures Earlier(longer, a, id) {
      var i :| 0 <= i < |order| && order[i] == a;
      assert longer[i] == a && longer[|order|] == id;
    }
    forall a, b | Earlier(longer, a, b) ensures Earlier(order, a, b) || (a in order && b == id) {
      var i, j :| 0 <= i < j < |longer| && longer[i] == a && longer[j] == b;
      assert order[i] == a;
      if j < |order| {
        assert order[j] == b;
      }
    }
  }

  /** The table after inserting the batch, unit by unit, in the given order. */
  ghost function Inserted(t: UnitTable, batch: UnitTable, order: seq<UnitId>): UnitTable
    requires forall u :: u in order ==> u in batch
  {
    if order == [] then t
    else var n := |order| - 1; WithUnit(Inserted(t, batch, order[..n]), batch[order[n]])
  }

  ghost predicate IsOrderOf(batch: UnitTable, order: seq<UnitId>) {
    NoRepeat(order) && forall u :: u in order <==> u in batch
  }

  lemma {:induction false} InsertedEdges(t: UnitTable, batch: UnitTable, order: seq<UnitId>)
    requires WellKeyed(t) && WellKeyed(batch) && !Collides(batch, t)
    requires NoRepeat(order) && forall u :: u in order ==> u in batch
    ensures InsertedUpTo(t, batch, order, Inserted(t, batch, order))
  {
    hide InsertedUpTo;
    if order == [] {
      StartInserting(t, batch);
    } else {
      var n := |order| - 1;
      var before := order[..n];
      InsertedEdges(t, batch, before);
      NoSharedIds(batch, t);
      assert order[n] in order && order[n] !in before;
      WithUnitFits(t, batch, before, Inserted(t, batch, before), order[n]);
      InsertedUpToGrows(t, batch, before, Inserted(t, batch, before), order[n], Inserted(t, batch, order));
      assert before + [order[n]] == order;
    }
  }

  lemma WithUnitFits(t: UnitTable, batch: UnitTable, order: seq<UnitId>, t': UnitTable, id: UnitId)
    requires WellKeyed(batch) && id in batch && id !in t && id !in order && InsertedUpTo(t, batch, order, t')
    ensures var t'' := WithUnit(t', batch[id]);
      && WellKeyed(t'') && t''.Keys == t'.Keys + {id} && t''[id] == batch[id]
      && forall u :: u in t' ==> t''[u] == PushMirrors(t'[u], batch[id])
  {
    PushMirrorsKeeps(t', batch[id]);
    hide PushMirrors;
  }

  /** The order in which the batch is inserted is arbitrary; it is returned to state what depends on it. */
  method InsertNewUnits(batch: UnitTable, t: UnitTable) returns (ok: bool, t': UnitTable, ghost order: seq<UnitId>)
    requires WellKeyed(batch) && WellKeyed(t)
    ensures ok <==> !Collides(batch, t) && RefsExist(batch, t)
    ensures !ok ==> t' == t
    ensures ok ==> IsOrderOf(batch, order) && t' == Inserted(t, batch, order) && InsertedUpTo(t, batch, order, t')
  {
    t', order := t, [];
    ok := CheckAllNamesExist(batch, t);
    if ok {
      NoSharedIds(batch, t);
      StartInserting(t, batch);
      hide Collides;
      hide RefsExist;
      hide InsertedUpTo;
      var todo := batch.Keys;
      while todo != {}
        invariant todo <= batch.Keys && NoRepeat(order)
        invariant forall u :: u in order <==> u in batch && u !in todo
        invariant InsertedUpTo(t, batch, order, t') && t' == Inserted(t, batch, order)
      {
        var id :| id in todo;
        ghost var before := t';
        InsertedKeys(t, batch, order, t');
        t' := InsertOne(t', batch[id]);
        InsertedUpToGrows(t, batch, order, before, id, t');
        assert (order + [id])[..|order|] == order;
        order := order + [id];
        todo := todo - {id};
      }
    }
  }

  lemma InsertedKeys(t: UnitTable, batch: UnitTable, order: seq<UnitId>, t': UnitTable)
    requires InsertedUpTo(t, batch, order, t')
    ensures WellKeyed(t') && t'.Keys == t.Keys + (set u | u in order)
  {
  }

  lemma NoSharedIds(batch: UnitTable, t: UnitTable)
    requires WellKeyed(batch) && WellKeyed(t) && !Collides(batch, t)
    ensures forall b :: b in batch ==> b !in t
  {
  }

  lemma StartInserting(t: UnitTable, batch: UnitTable)
    requires WellKeyed(t)
    ensures InsertedUpTo(t, batch, [], t)
  {
  }

  // ---------- what inserting keeps ----------

  /** Everything a new unit has an edge to is in the table or new. */
  ghost predicate DepsExist(batch: UnitTable, t: UnitTable) {
    forall u, r, v :: Has(batch, u, r, v) ==> v in t || v in batch
  }

  /** The check of the names makes sure of that for units that come from a file: they name all their dependencies. */
  lemma ParsedDepsExist(batch: UnitTable, t: UnitTable)
    requires RefsExist(batch, t) && forall u :: u in batch ==> AsParsed(batch[u])
    ensures DepsExist(batch, t)
  {
    forall u, r, v | Has(batch, u, r, v) ensures v in t || v in batch {
      assert v in batch[u].refsByName;
    }
  }

  /** The grown table is closed exactly if everything the batch depends on exists. */
  lemma InsertingKeepsClosed(t: UnitTable, batch: UnitTable, order: seq<UnitId>, t': UnitTable)
    requires Closed(t) && InsertedUpTo(t, batch, order, t') && forall u :: u in order <==> u in batch
    ensures Closed(t') <==> DepsExist(batch, t)
  {
    if DepsExist(batch, t) {
      forall u, r, v | Has(t', u, r, v) ensures v in t' {
        assert InsertedEdge(t, batch, order, u, r, v);
      }
    }
    if Closed(t') {
      forall u, r, v | Has(batch, u, r, v) ensures v in t || v in batch {
        assert InsertedEdge(t, batch, order, u, r, v);
        assert Has(t', u, r, v);
      }
    }
  }

  /** An edge between two new units is visible on both sides, or its far end is inserted first. */
  ghost predicate BatchMirrors(batch: UnitTable, order: seq<UnitId>) {
    forall u, r, v :: Has(batch, u, r, v) && v in batch ==> Has(batch, v, Mirror(r), u) || Earlier(order, v, u)
  }

  /**
   * The grown table is mirrored exactly when, besides, the batch is mirrored in itself where the order does not make up
   * for it.
   */
  lemma InsertingKeepsMirrored(t: UnitTable, batch: UnitTable, order: seq<UnitId>, t': UnitTable)
    requires Closed(t) && Mirrored(t) && (forall b :: b in batch ==> b !in t)
    requires InsertedUpTo(t, batch, order, t') && forall u :: u in order <==> u in batch
    ensures Mirrored(t') <==> BatchMirrors(batch, order) && DepsExist(batch, t)
  {
    if Mirrored(t') {
      forall u, r, v | Has(batch, u, r, v) ensures v in t || v in batch {
        assert InsertedEdge(t, batch, order, u, r, v);
        assert Has(t', v, Mirror(r), u);
      }
      forall u, r, v | Has(batch, u, r, v) && v in batch
        ensures Has(batch, v, Mirror(r), u) || Earlier(order, v, u)
      {
        assert InsertedEdge(t, batch, order, u, r, v);
        assert Has(t', v, Mirror(r), u);
        assert InsertedEdge(t, batch, order, v, Mirror(r), u);
      }
    }
    if BatchMirrors(batch, order) && DepsExist(batch, t) {
      forall u, r, v | Has(t', u, r, v) ensures Has(t', v, Mirror(r), u) {
        MirroredEdge(t, batch, order, u, r, v);
      }
    }
  }

  lemma MirroredEdge(t: UnitTable, batch: UnitTable, order: seq<UnitId>, u: UnitId, r: Rel, v: UnitId)
    requires Mirrored(t) && DepsExist(batch, t) && (forall b :: b in batch ==> b !in t)
    requires (forall u :: u in order <==> u in batch) && BatchMirrors(batch, order)
    requires InsertedEdge(t, batch, order, u, r, v)
    ensures InsertedEdge(t, batch, order, v, Mirror(r), u)
  {
    assert Mirror(Mirror(r)) == r;
    if Has(t, u, r, v) {
      assert Has(t, v, Mirror(r), u);
    }
  }

  /** Every edge between two new units is visible on both sides. */
  ghost predicate SelfMirrored(batch: UnitTable) {
    forall u, r, v :: Has(batch, u, r, v) && v in batch ==> Has(batch, v, Mirror(r), u)
  }

  ghost predicate Insertable(t: UnitTable, batch: UnitTable) {
    && WellKeyed(t) && WellKeyed(batch) && Closed(t) && Mirrored(t)
    && !Collides(batch, t)
  }

  lemma MirroredInOrder(t: UnitTable, batch: UnitTable, order: seq<UnitId>)
    requires Insertable(t, batch) && IsOrderOf(batch, order)
    ensures Mirrored(Inserted(t, batch, order)) <==> BatchMirrors(batch, order) && DepsExist(batch, t)
  {
    InsertedEdges(t, batch, order);
    NoSharedIds(batch, t);
    hide InsertedUpTo;
    InsertingKeepsMirrored(t, batch, order, Inserted(t, batch, order));
  }

  lemma SomeOrder(ids: set<UnitId>) returns (order: seq<UnitId>)
    ensures NoRepeat(order) && forall x :: x in order <==> x in ids
  {
    order := [];
    var rest := ids;
    while rest != {}
      invariant rest <= ids && NoRepeat(order)
      invariant forall x :: x in order <==> x in ids && x !in rest
    {
      var x :| x in rest;
      order, rest := order + [x], rest - {x};
    }
  }

  /** An order that starts with the given unit. */
  lemma OrderFrom(batch: UnitTable, u: UnitId) returns (order: seq<UnitId>)
    requires u in batch
    ensures IsOrderOf(batch, order) && forall v :: !Earlier(order, v, u)
  {
    var rest := SomeOrder(batch.Keys - {u});
    order := [u] + rest;
    forall i, j | 0 <= i < j < |order| ensures order[i] != order[j] && order[j] != u {
      assert order[j] == rest[j - 1] && rest[j - 1] in rest;
      if i > 0 {
        assert order[i] == rest[i - 1];
      }
    }
    forall x ensures x in order <==> x in batch {
      assert x in order <==> x == u || x in rest;
    }
  }

  lemma ClosedInOrder(t: UnitTable, batch: UnitTable, order: seq<UnitId>)
    requires Insertable(t, batch) && IsOrderOf(batch, order)
    ensures Closed(Inserted(t, batch, order)) <==> DepsExist(batch, t)
  {
    InsertedEdges(t, batch, order);
    hide InsertedUpTo;
    InsertingKeepsClosed(t, batch, order, Inserted(t, batch, order));
  }

  /**
   * What a caller can check beforehand: the table stays mirrored in whatever order the batch is inserted if and only if
   * the batch is mirrored in itself and what it depends on exists.
   */
  lemma MirroredBatchSuits(t: UnitTable, batch: UnitTable)
    requires Insertable(t, batch)
    ensures SelfMirrored(batch) && DepsExist(batch, t) <==>
      forall order :: IsOrderOf(batch, order) ==> Mirrored(Inserted(t, batch, order))
  {
    hide Insertable;
    hide Mirrored;
    hide IsOrderOf;
    OrdersAreOf(batch);
    if SelfMirrored(batch) && DepsExist(batch, t) {
      forall order | IsOrderOf(batch, order) ensures Mirrored(Inserted(t, batch, order)) {
        MirroredInOrder(t, batch, order);
      }
    } else if !DepsExist(batch, t) {
      var u, r, v :| Has(batch, u, r, v) && v !in t && v !in batch;
      var order := OrderFrom(batch, u);
      MirroredInOrder(t, batch, order);
    } else {
      var u, r, v :| Has(batch, u, r, v) && v in batch && !Has(batch, v, Mirror(r), u);
      var order := OrderFrom(batch, u);
      MirroredInOrder(t, batch, order);
      assert !Earlier(order, v, u);
      assert !BatchMirrors(batch, order);
    }
  }

  lemma OrdersAreOf(batch: UnitTable)
    ensures forall order, u :: IsOrderOf(batch, order) && u in order ==> u in batch
  {
  }

  /** Two new units of which only `a` mentions the edge between them, `a` after `b`. */
  function OneSidedBatch(a: UnitId, b: UnitId): UnitTable {
    map[
      a := Unit(a, Dependencies([], [], [], [], [], [b]), [b], TargetSpecific),
      b := Unit(b, Dependencies([], [], [], [], [], []), [], TargetSpecific)
    ]
  }

  lemma OneSidedEdges(a: UnitId, b: UnitId)
    requires a != b
    ensures forall u, r, v :: Has(OneSidedBatch(a, b), u, r, v) <==> u == a && r == After && v == b
  {
  }

  lemma OneSidedIsAccepted(t: UnitTable, a: UnitId, b: UnitId)
    requires a != b && a.kind == Target && b.kind == Target
    ensures var batch := OneSidedBatch(a, b);
      WellKeyed(batch) && RefsExist(batch, t) && DepsExist(batch, t) && forall u :: u in batch ==> AsParsed(batch[u])
  {
    OneSidedEdges(a, b);
    hide Has;
  }

  lemma OneSidedOrders(a: UnitId, b: UnitId)
    requires a != b
    ensures var batch := OneSidedBatch(a, b);
      && IsOrderOf(batch, [b, a]) && IsOrderOf(batch, [a, b])
      && BatchMirrors(batch, [b, a]) && !BatchMirrors(batch, [a, b])
  {
    OneSidedEdges(a, b);
    hide Has;
    assert [b, a][0] == b && [b, a][1] == a;
    assert Earlier([b, a], b, a) && !Earlier([a, b], b, a);
    assert Has(OneSidedBatch(a, b), a, After, b) && !Has(OneSidedBatch(a, b), b, Mirror(After), a);
  }

  /** For such a batch, which is accepted, the iteration order decides whether the table stays mirrored. */
  lemma OrderMatters(t: UnitTable, a: UnitId, b: UnitId)
    requires WellKeyed(t) && Closed(t) && Mirrored(t)
    requires a != b && a.kind == Target && b.kind == Target && !Collides(OneSidedBatch(a, b), t)
    ensures var batch := OneSidedBatch(a, b);
      && Insertable(t, batch) && RefsExist(batch, t) && DepsExist(batch, t) && (forall u :: u in batch ==> AsParsed(batch[u]))
      && IsOrderOf(batch, [b, a]) && IsOrderOf(batch, [a, b])
      && InsertedUpTo(t, batch, [b, a], Inserted(t, batch, [b, a])) && Mirrored(Inserted(t, batch, [b, a]))
      && InsertedUpTo(t, batch, [a, b], Inserted(t, batch, [a, b])) && !Mirrored(Inserted(t, batch, [a, b]))
  {
    hide Mirrored;
    hide Closed;
    hide WellKeyed;
    hide Collides;
    hide RefsExist;
    hide DepsExist;
    hide AsParsed;
    hide BatchMirrors;
    hide OneSidedBatch;
    hide InsertedUpTo;
    hide Inserted;
    var batch := OneSidedBatch(a, b);
    OneSidedIsAccepted(t, a, b);
    OneSidedOrders(a, b);
    MirroredInOrder(t, batch, [b, a]);
    MirroredInOrder(t, batch, [a, b]);
    InsertedEdges(t, batch, [b, a]);
    InsertedEdges(t, batch, [a, b]);
  }

  // ---------- all new units of a freshly loaded table ----------

  /** The loaded units whose names are not in the table yet. */
  function NewOnes(loaded: UnitTable, t: UnitTable): UnitTable {
    map u | u in loaded && (forall x :: x in t ==> t[x].id.name != loaded[u].id.name) :: loaded[u]
  }

  lemma NewOnesAreOutside(loaded: UnitTable, t: UnitTable)
    requires WellKeyed(loaded) && WellKeyed(t) && NamesUnique(loaded.Keys + t.Keys)
    ensures forall u :: u in NewOnes(loaded, t) <==> u in loaded && u !in t
    ensures forall u :: u in NewOnes(loaded, t) ==> NewOnes(loaded, t)[u] == loaded[u]
    ensures WellKeyed(NewOnes(loaded, t)) && !Collides(NewOnes(loaded, t), t)
  {
  }

  /** Old units keep their edges, new ones bring theirs, and where the two meet the old one gets the mirrored edge. */
  ghost predicate GrownBy(t: UnitTable, loaded: UnitTable, t': UnitTable) {
    && (forall u, r, v :: Has(t', u, r, v) <==>
         || Has(t, u, r, v)
         || (u !in t && Has(loaded, u, r, v))
         || (u in t && v !in t && Has(loaded, v, Mirror(r), u)))
    && ConfFrom(t, loaded, t')
  }

  lemma GrownEdge(t: UnitTable, loaded: UnitTable, batch: UnitTable, order: seq<UnitId>, u: UnitId, r: Rel, v: UnitId)
    requires Mirrored(loaded) && (forall u :: u in order <==> u in batch)
    requires forall u :: u in batch <==> u in loaded && u !in t
    requires forall u :: u in batch ==> batch[u] == loaded[u]
    ensures InsertedEdge(t, batch, order, u, r, v) <==>
      Has(t, u, r, v) || (u !in t && Has(loaded, u, r, v)) || (u in t && v !in t && Has(loaded, v, Mirror(r), u))
  {
    assert Mirror(Mirror(r)) == r;
    assert Has(loaded, v, Mirror(r), u) ==> Has(loaded, u, r, v);
  }

  lemma InsertedIsGrown(t: UnitTable, loaded: UnitTable, batch: UnitTable, order: seq<UnitId>, t': UnitTable)
    requires InsertedUpTo(t, batch, order, t') && Mirrored(loaded) && (forall u :: u in order <==> u in batch)
    requires forall u :: u in batch <==> u in loaded && u !in t
    requires forall u :: u in batch ==> batch[u] == loaded[u]
    ensures GrownBy(t, loaded, t')
  {
    forall u, r, v ensures InsertedEdge(t, batch, order, u, r, v) <==>
      Has(t, u, r, v) || (u !in t && Has(loaded, u, r, v)) || (u in t && v !in t && Has(loaded, v, Mirror(r), u))
    {
      GrownEdge(t, loaded, batch, order, u, r, v);
    }
    hide Has;
    hide InsertedEdge;
    hide Mirrored;
  }

  /** What is new in a well-formed table can be inserted in any order into another one. */
  lemma NewOnesSuit(loaded: UnitTable, t: UnitTable, order: seq<UnitId>)
    requires WellKeyed(loaded) && Closed(loaded) && Mirrored(loaded) && NamesUnique(loaded.Keys + t.Keys)
    requires WellKeyed(t) && Closed(t) && Mirrored(t) && IsOrderOf(NewOnes(loaded, t), order)
    ensures var t' := Inserted(t, NewOnes(loaded, t), order);
      Closed(t') && Mirrored(t') && t'.Keys == t.Keys + loaded.Keys && GrownBy(t, loaded, t')
  {
    var batch := NewOnes(loaded, t);
    NewOnesAreOutside(loaded, t);
    assert SelfMirrored(batch) && DepsExist(batch, t) by {
      forall u, r, v | Has(batch, u, r, v) ensures (v in t || v in batch) && (v in batch ==> Has(batch, v, Mirror(r), u)) {
        assert Has(loaded, u, r, v);
        assert Has(loaded, v, Mirror(r), u);
      }
    }
    hide NewOnes;
    hide Mirrored;
    hide Closed;
    hide SelfMirrored;
    MirroredBatchSuits(t, batch);
    ClosedInOrder(t, batch, order);
    InsertedEdges(t, batch, order);
    InsertedIsGrown(t, loaded, batch, order, Inserted(t, batch, order));
    hide DepsExist;
  }

  /** The loop that filters out the names that exist. */
  method SelectNew(loaded: UnitTable, t: UnitTable) returns (batch: UnitTable)
    ensures batch == NewOnes(loaded, t)
  {
    var existing := set x | x in t :: t[x].id.name;
    batch := map[];
    var todo := loaded.Keys;
    while todo != {}
      invariant todo <= loaded.Keys
      invariant batch == map u | u in loaded && u !in todo && loaded[u].id.name !in existing :: loaded[u]
    {
      var u :| u in todo;
      if loaded[u].id.name !in existing {
        batch := batch[u := loaded[u]];
      }
      todo := todo - {u};
    }
    assert forall u :: u in loaded ==> (loaded[u].id.name in existing <==> exists x :: x in t && t[x].id.name == loaded[u].id.name);
  }

  /**
   * Whatever the order, inserting the new ones keeps the table closed and mirrored. The insertion is refused exactly if
   * one of them names a unit that is in neither table, such as one that loading has pruned.
   */
  method LoadAllNew(loaded: UnitTable, t: UnitTable) returns (ok: bool, t': UnitTable)
    requires WellKeyed(loaded) && Closed(loaded) && Mirrored(loaded) && NamesUnique(loaded.Keys + t.Keys)
    requires WellKeyed(t) && Closed(t) && Mirrored(t)
    ensures ok <==> RefsExist(NewOnes(loaded, t), t)
    ensures ok ==> Closed(t') && Mirrored(t') && t'.Keys == t.Keys + loaded.Keys && GrownBy(t, loaded, t')
    ensures !ok ==> t' == t
  {
    hide WellKeyed;
    hide Closed;
    hide Mirrored;
    hide NamesUnique;
    hide InsertedUpTo;
    hide Inserted;
    hide Collides;
    hide RefsExist;
    hide IsOrderOf;
    hide GrownBy;
    NewOnesAreOutside(loaded, t);
    var batch := SelectNew(loaded, t);
    hide NewOnes;
    ghost var order;
    ok, t', order := InsertNewUnits(batch, t);
    if ok {
      NewOnesSuit(loaded, t, order);
    }
  }
}
