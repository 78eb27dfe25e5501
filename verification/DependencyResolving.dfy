/** Making every edge visible on both sides, and adding the implicit edges of sockets. */
module DependencyResolving {
  import opened Units
  import opened Digraph
  import opened IdVectors
  import opened Pruning

  // ---------- pushing edges ----------

  function PushDep(t: UnitTable, u: UnitId, r: Rel, v: UnitId): UnitTable
    requires u in t
  {
    t[u := t[u].(deps := t[u].deps.Push(r, v))]
  }

  /** Everything but the dependency vectors is the same. */
  ghost predicate SameConf(t: UnitTable, t': UnitTable) {
    && t'.Keys == t.Keys
    && forall u :: u in t ==> t'[u].id == t[u].id && t'[u].refsByName == t[u].refsByName && t'[u].specific == t[u].specific
  }

  lemma PushDepAdds(t: UnitTable, u: UnitId, r: Rel, v: UnitId)
    requires u in t
    ensures SameConf(t, PushDep(t, u, r, v))
    ensures forall a, q, b :: Has(PushDep(t, u, r, v), a, q, b) <==> Has(t, a, q, b) || (a == u && q == r && b == v)
  {
  }

  // ---------- mirroring ----------

  type Pairs = seq<(UnitId, UnitId)>

  ghost predicate InTable(t: UnitTable, pairs: Pairs) {
    forall p :: p in pairs ==> p.0 in t && p.1 in t
  }

  /** For each pair, push the first id onto the vector `r` of the second, and the second onto the mirror of `r`. */
  method PushBothWays(t: UnitTable, pairs: Pairs, r: Rel) returns (t': UnitTable)
    requires InTable(t, pairs)
    ensures SameConf(t, t')
    ensures forall u, q, v :: Has(t', u, q, v) <==>
      Has(t, u, q, v) || (q == r && (v, u) in pairs) || (q == Mirror(r) && (u, v) in pairs)
  {
    t' := t;
    for i := 0 to |pairs|
      invariant SameConf(t, t')
      invariant forall u, q, v :: Has(t', u, q, v) <==>
        Has(t, u, q, v) || (q == r && (v, u) in pairs[..i]) || (q == Mirror(r) && (u, v) in pairs[..i])
    {
      hide Has;
      hide PushDep;
      var (a, b) := pairs[i];
      PushDepAdds(t', b, r, a);
      t' := PushDep(t', b, r, a);
      PushDepAdds(t', a, Mirror(r), b);
      t' := PushDep(t', a, Mirror(r), b);
      assert pairs[..i + 1] == pairs[..i] + [(a, b)];
    }
    assert pairs[..|pairs|] == pairs;
  }

  /** For each pair, push the first id onto the vector `r` of the second. */
  method PushOneWay(t: UnitTable, pairs: Pairs, r: Rel) returns (t': UnitTable)
    requires InTable(t, pairs)
    ensures SameConf(t, t')
    ensures forall u, q, v :: Has(t', u, q, v) <==> Has(t, u, q, v) || (q == r && (v, u) in pairs)
  {
    t' := t;
    for i := 0 to |pairs|
      invariant SameConf(t, t')
      invariant forall u, q, v :: Has(t', u, q, v) <==> Has(t, u, q, v) || (q == r && (v, u) in pairs[..i])
    {
      hide Has;
      hide PushDep;
      var (a, b) := pairs[i];
      PushDepAdds(t', b, r, a);
      t' := PushDep(t', b, r, a);
      assert pairs[..i + 1] == pairs[..i] + [(a, b)];
    }
    assert pairs[..|pairs|] == pairs;
  }

  /** `(unit, id)` for every id of the vector. */
  function PairWith(u: UnitId, ids: seq<UnitId>): (r: Pairs)
    ensures forall a, b :: (a, b) in r <==> a == u && b in ids
  {
    if ids == [] then [] else [(u, ids[0])] + PairWith(u, ids[1..])
  }

  /** `(id, unit)` for every id of the vector. */
  function PairFrom(ids: seq<UnitId>, u: UnitId): (r: Pairs)
    ensures forall a, b :: (a, b) in r <==> a in ids && b == u
  {
    if ids == [] then [] else [(ids[0], u)] + PairFrom(ids[1..], u)
  }

  /** The first loop: remember for every declared edge what has to be pushed on the other side. */
  method CollectEdges(t: UnitTable) returns (wantedBy: Pairs, requiredBy: Pairs, before: Pairs, after: Pairs)
    ensures forall a, b :: (a, b) in wantedBy <==> Has(t, b, Wants, a) || Has(t, a, WantedBy, b)
    ensures forall a, b :: (a, b) in requiredBy <==> Has(t, b, Requires, a) || Has(t, a, RequiredBy, b)
    ensures forall a, b :: (a, b) in before <==> Has(t, a, After, b)
    ensures forall a, b :: (a, b) in after <==> Has(t, a, Before, b)
  {
    wantedBy, requiredBy, before, after := [], [], [], [];
    var todo := t.Keys;
    while todo != {}
      invariant todo <= t.Keys
      invariant forall a, b :: (a, b) in wantedBy <==>
        (b !in todo && Has(t, b, Wants, a)) || (a !in todo && Has(t, a, WantedBy, b))
      invariant forall a, b :: (a, b) in requiredBy <==>
        (b !in todo && Has(t, b, Requires, a)) || (a !in todo && Has(t, a, RequiredBy, b))
      invariant forall a, b :: (a, b) in before <==> a !in todo && Has(t, a, After, b)
      invariant forall a, b :: (a, b) in after <==> a !in todo && Has(t, a, Before, b)
    {
      var u :| u in todo;
      var d := t[u].deps;
      wantedBy := wantedBy + PairFrom(d.wants, u) + PairWith(u, d.wantedBy);
      requiredBy := requiredBy + PairFrom(d.requires_, u) + PairWith(u, d.requiredBy);
      before := before + PairWith(u, d.after);
      after := after + PairWith(u, d.before);
      todo := todo - {u};
    }
  }

  method MirrorDependencies(t: UnitTable) returns (t': UnitTable)
    requires Closed(t)
    ensures SameConf(t, t')
    ensures forall u, r, v :: Has(t', u, r, v) <==> Has(t, u, r, v) || Has(t, v, Mirror(r), u)
  {
    hide Has;
    var wantedBy, requiredBy, before, after := CollectEdges(t);
    PairsAreInTable(t, wantedBy, requiredBy, before, after);
    t' := PushBothWays(t, wantedBy, Wants);
    t' := PushBothWays(t', requiredBy, Requires);
    t' := PushOneWay(t', before, Before);
    t' := PushOneWay(t', after, After);
    forall u, r, v ensures Has(t', u, r, v) <==> Has(t, u, r, v) || Has(t, v, Mirror(r), u) {
      match r {
        case Wants =>
        case WantedBy =>
        case Requires =>
        case RequiredBy =>
        case Before =>
        case After =>
      }
    }
  }

  lemma PairsAreInTable(t: UnitTable, wantedBy: Pairs, requiredBy: Pairs, before: Pairs, after: Pairs)
    requires Closed(t)
    requires forall a, b :: (a, b) in wantedBy ==> Has(t, b, Wants, a) || Has(t, a, WantedBy, b)
    requires forall a, b :: (a, b) in requiredBy ==> Has(t, b, Requires, a) || Has(t, a, RequiredBy, b)
    requires forall a, b :: (a, b) in before ==> Has(t, a, After, b)
    requires forall a, b :: (a, b) in after ==> Has(t, a, Before, b)
    ensures InTable(t, wantedBy) && InTable(t, requiredBy) && InTable(t, before) && InTable(t, after)
  {
    forall p | p in wantedBy ensures p.0 in t && p.1 in t {
      assert (p.0, p.1) in wantedBy;
    }
    forall p | p in requiredBy ensures p.0 in t && p.1 in t {
      assert (p.0, p.1) in requiredBy;
    }
    forall p | p in before ensures p.0 in t && p.1 in t {
      assert (p.0, p.1) in before;
    }
    forall p | p in after ensures p.0 in t && p.1 in t {
      assert (p.0, p.1) in after;
    }
  }

  // ---------- dedup ----------

  method DedupAll(t: UnitTable) returns (t': UnitTable)
    ensures SameConf(t, t')
    ensures forall u, r, v :: Has(t', u, r, v) <==> Has(t, u, r, v)
    ensures Closed(t) && NamesUnique(t.Keys) ==> Deduped(t')
  {
    hide Has;
    hide DedupUnit;
    hide DedupDeps;
    hide Deduped;
    hide NamesUnique;
    t' := t;
    var todo := t.Keys;
    while todo != {}
      invariant todo <= t.Keys && SameConf(t, t')
      invariant forall u, r, v :: Has(t', u, r, v) <==> Has(t, u, r, v)
      invariant forall u :: u in t && u !in todo ==> t'[u].deps == DedupDeps(t[u].deps)
      invariant forall u :: u in todo ==> t'[u] == t[u]
    {
      var u :| u in todo;
      DedupUnitKeeps(t', u);
      OneDeduped(t', u);
      t' := DedupUnit(t', u);
      todo := todo - {u};
    }
    if Closed(t) && NamesUnique(t.Keys) {
      AllDeduped(t, t');
    }
  }

  lemma AllDeduped(t: UnitTable, t': UnitTable)
    requires Closed(t) && NamesUnique(t.Keys) && t'.Keys == t.Keys
    requires forall u :: u in t ==> t'[u].deps == DedupDeps(t[u].deps)
    ensures Deduped(t')
  {
    forall u, r: Rel | u in t' ensures SortedByName(t'[u].deps.Get(r)) && NoRepeat(t'[u].deps.Get(r)) {
      assert forall v :: v in t[u].deps.Get(r) ==> Has(t, u, r, v);
      DedupHasNoRepeat(t[u].deps.Get(r));
    }
  }

  // ---------- sockets come before sockets.target ----------

  const SOCKETS_TARGET: UnitId := UnitId(Target, "sockets.target")

  ghost predicate SocketTargetEdge(t: UnitTable, u: UnitId, r: Rel, v: UnitId) {
    && SOCKETS_TARGET in t
    && u in t && v in t
    && ((r == Before && u.kind == Socket && v == SOCKETS_TARGET) || (r == After && u == SOCKETS_TARGET && v.kind == Socket))
  }

  function DedupUnit(t: UnitTable, u: UnitId): UnitTable
    requires u in t
  {
    t[u := t[u].(deps := DedupDeps(t[u].deps))]
  }

  lemma DedupUnitKeeps(t: UnitTable, u: UnitId)
    requires u in t
    ensures SameConf(t, DedupUnit(t, u))
    ensures forall a, q, b :: Has(DedupUnit(t, u), a, q, b) <==> Has(t, a, q, b)
  {
    var t' := DedupUnit(t, u);
    forall a, q, b ensures Has(t', a, q, b) <==> Has(t, a, q, b) {
      if a == u {
        assert t'[u].deps.Get(q) == Dedup(t[u].deps.Get(q));
      }
    }
  }

  lemma OneDeduped(t: UnitTable, u: UnitId)
    requires u in t
    ensures DedupUnit(t, u)[u].deps == DedupDeps(t[u].deps) && forall x :: x in t && x != u ==> DedupUnit(t, u)[x] == t[x]
  {
  }

  function ExtendAfter(t: UnitTable, u: UnitId, ids: seq<UnitId>): UnitTable
    requires u in t
  {
    t[u := t[u].(deps := t[u].deps.(after := t[u].deps.after + ids))]
  }

  lemma ExtendAfterAdds(t: UnitTable, u: UnitId, ids: seq<UnitId>)
    requires u in t
    ensures SameConf(t, ExtendAfter(t, u, ids))
    ensures forall a, q, b :: Has(ExtendAfter(t, u, ids), a, q, b) <==> Has(t, a, q, b) || (a == u && q == After && b in ids)
  {
    var d := t[u].deps.(after := t[u].deps.after + ids);
    forall q: Rel ensures d.Get(q) == if q == After then t[u].deps.Get(q) + ids else t[u].deps.Get(q) {}
  }

  method AddSocketTargetRelations(t: UnitTable) returns (t': UnitTable)
    ensures SameConf(t, t')
    ensures forall u, r, v :: Has(t', u, r, v) <==> Has(t, u, r, v) || SocketTargetEdge(t, u, r, v)
  {
    hide Has;
    hide PushDep;
    hide DedupUnit;
    hide ExtendAfter;
    t' := t;
    if SOCKETS_TARGET in t {
      var socketIds: seq<UnitId> := [];
      var todo := t.Keys;
      while todo != {}
        invariant todo <= t.Keys && SameConf(t, t')
        invariant forall v :: v in socketIds <==> v in t && v !in todo && v.kind == Socket
        invariant forall u, r, v :: Has(t', u, r, v) <==>
          Has(t, u, r, v) || (r == Before && u in t && u !in todo && u.kind == Socket && v == SOCKETS_TARGET)
      {
        var u :| u in todo;
        if u.kind == Socket {
          PushDepAdds(t', u, Before, SOCKETS_TARGET);
          t' := PushDep(t', u, Before, SOCKETS_TARGET);
          DedupUnitKeeps(t', u);
          t' := DedupUnit(t', u);
          socketIds := socketIds + [u];
        }
        todo := todo - {u};
      }
      ExtendAfterAdds(t', SOCKETS_TARGET, socketIds);
      t' := ExtendAfter(t', SOCKETS_TARGET, socketIds);
      DedupUnitKeeps(t', SOCKETS_TARGET);
      t' := DedupUnit(t', SOCKETS_TARGET);
    }
  }
}
