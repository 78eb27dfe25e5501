/** Removing a unit from a running system: which units are checked to be stopped, and whether those are all removed ones. */
module RemovalCheck {
  import opened Units
  import opened Digraph
  import opened UnitStatus
  import opened RemoveUnits
  import opened SocketLinking
  import opened Loading

  ghost predicate AllStopped(st: StatusMap, ids: iset<UnitId>) {
    forall x :: x in st && x in ids ==> st[x].Stopped?
  }

  /** The roots and everything that requires them, over any number of steps. */
  ghost function WithDependents(t: UnitTable, roots: seq<UnitId>): iset<UnitId> {
    iset x | Dependent(RelGraph(t, RequiredBy), roots, x)
  }

  lemma DependentsOfMore(t: UnitTable, roots: seq<UnitId>, id: UnitId)
    ensures WithDependents(t, roots + [id]) == WithDependents(t, roots) + WithDependents(t, [id])
    ensures WithDependents(t, []) == iset{}
  {
    DependentOfMore(RelGraph(t, RequiredBy), roots, id);
  }

  lemma DependentsOfOne(t: UnitTable, id: UnitId)
    requires id in t
    ensures WithDependents(t, [id]) == iset{id} + WithDependents(t, t[id].deps.requiredBy)
  {
    DependentOfUnit(RelGraph(t, RequiredBy), id);
  }

  /**
   * The recursion returns: it goes on only from stopped units, and to a unit only if all before it in the list passed,
   * and each time the rank falls. Nothing checks that `requires` has no cycle; on a cycle of stopped units that it gets
   * to the original does not return.
   */
  ghost predicate Returns(t: UnitTable, st: StatusMap, rank: map<UnitId, nat>) {
    forall u, i :: u in rank && GoesOnTo(t, st, u, i) ==>
      t[u].deps.requiredBy[i] in rank && rank[t[u].deps.requiredBy[i]] < rank[u]
  }

  ghost predicate GoesOnTo(t: UnitTable, st: StatusMap, u: UnitId, i: int) {
    && u in t && u in st && st[u].Stopped? && 0 <= i < |t[u].deps.requiredBy|
    && AllStopped(st, WithDependents(t, t[u].deps.requiredBy[..i]))
  }

  /** In particular it returns for a unit from which no cycle of `required_by` can be reached. */
  lemma RankedReturns(t: UnitTable, st: StatusMap, rank: map<UnitId, nat>)
    requires RankedPart(RelGraph(t, RequiredBy), rank)
    ensures Returns(t, st, rank)
  {
    forall u, i | u in rank && u in t && 0 <= i < |t[u].deps.requiredBy|
      ensures t[u].deps.requiredBy[i] in rank && rank[t[u].deps.requiredBy[i]] < rank[u]
    {
      assert Edge(RelGraph(t, RequiredBy), u, t[u].deps.requiredBy[i]);
    }
  }

  method CheckDeactivatedRecursive(id: UnitId, t: UnitTable, st: StatusMap, ghost rank: map<UnitId, nat>) returns (ok: bool)
    requires TableCovers(t, st) && id in t && id in rank && Returns(t, st, rank)
    ensures ok <==> AllStopped(st, WithDependents(t, [id]))
    decreases rank[id]
  {
    hide Dependent;
    DependentsOfOne(t, id);
    if !st[id].Stopped? {
      return false;
    }
    var next := t[id].deps.requiredBy;
    DependentsOfMore(t, [], id);
    for i := 0 to |next|
      invariant AllStopped(st, WithDependents(t, next[..i]))
    {
      assert Has(t, id, RequiredBy, next[i]);
      NextFalls(t, st, rank, id, i);
      var nextOk := CheckDeactivatedRecursive(next[i], t, st, rank);
      DependentsOfMore(t, next[..i], next[i]);
      assert next[..i] + [next[i]] == next[..i + 1];
      if !nextOk {
        PartOfAll(t, next, i);
        return false;
      }
    }
    assert next[..|next|] == next;
    return true;
  }

  lemma NextFalls(t: UnitTable, st: StatusMap, rank: map<UnitId, nat>, id: UnitId, i: nat)
    requires Returns(t, st, rank) && id in rank && id in t && id in st && st[id].Stopped? && i < |t[id].deps.requiredBy|
    requires AllStopped(st, WithDependents(t, t[id].deps.requiredBy[..i]))
    ensures t[id].deps.requiredBy[i] in rank && rank[t[id].deps.requiredBy[i]] < rank[id]
  {
    assert GoesOnTo(t, st, id, i);
  }

  lemma PartOfAll(t: UnitTable, roots: seq<UnitId>, i: nat)
    requires i < |roots|
    ensures WithDependents(t, [roots[i]]) <= WithDependents(t, roots)
  {
    forall x | Dependent(RelGraph(t, RequiredBy), [roots[i]], x) ensures Dependent(RelGraph(t, RequiredBy), roots, x) {
      assert Reaches(RelGraph(t, RequiredBy), roots[i], x);
    }
  }

  predicate Names(t: UnitTable, u: UnitId, rm: UnitId) {
    u in t && u != rm && rm in t[u].refsByName
  }

  /**
   * The recursive calls find their own id in the list already and return at once, so only units that name `rm`
   * themselves are found, not those that name them.
   */
  method FindAllDepending(rm: UnitId, t: UnitTable, ids: seq<UnitId>) returns (ids': seq<UnitId>)
    ensures rm in ids ==> ids' == ids
    ensures rm !in ids ==> forall u :: u in ids' <==> u in ids || Names(t, u, rm)
    decreases rm !in ids
  {
    if rm in ids {
      return ids;
    }
    var new_ := DirectReferrers(t, rm);
    ids' := ids + new_;
    for i := 0 to |new_|
      invariant ids' == ids + new_
    {
      ids' := FindAllDepending(new_[i], t, ids');
    }
  }

  /** The units that have to be stopped for the removal to go ahead. */
  ghost function Checked(t: UnitTable, rm: UnitId): iset<UnitId> {
    iset x | x in WithDependents(t, [rm]) || DependsOnReferrer(t, rm, x)
  }

  ghost predicate DependsOnReferrer(t: UnitTable, rm: UnitId, x: UnitId) {
    exists u :: Names(t, u, rm) && x in WithDependents(t, [u])
  }

  /** The referrers are checked in any order, so the recursion has to return for each of them, once the unit itself passed. */
  method RemoveUnitWithDependencies(rm: UnitId, t: UnitTable, st: StatusMap, ghost rank: map<UnitId, nat>)
    returns (ok: bool, t': UnitTable)
    requires TableCovers(t, st) && rm in t && rm in rank && Returns(t, st, rank)
    requires AllStopped(st, WithDependents(t, [rm])) ==> forall u :: Names(t, u, rm) ==> u in rank
    ensures ok <==> AllStopped(st, Checked(t, rm))
    ensures t' == if ok then DropIds(t, RemovalSet(t, rm)) else t
  {
    hide Dependent;
    hide Returns;
    hide RelGraph;
    ok := CheckDeactivatedRecursive(rm, t, st, rank);
    if !ok {
      return false, t;
    }
    var depending := FindAllDepending(rm, t, []);
    for i := 0 to |depending|
      invariant forall k :: 0 <= k < i ==> AllStopped(st, WithDependents(t, [depending[k]]))
    {
      assert depending[i] in depending && Names(t, depending[i], rm);
      ok := CheckDeactivatedRecursive(depending[i], t, st, rank);
      if !ok {
        return false, t;
      }
    }
    t' := RemoveWithDependingUnits(rm, t);
    ok := true;
  }

  // ---------- are all removed units checked? ----------

  ghost predicate CheckPasses(t: UnitTable, rm: UnitId, st: StatusMap) {
    TableCovers(t, st) && AllStopped(st, Checked(t, rm))
  }

  /**
   * The check protects every removed unit exactly when each of them is among the checked ones: the unit itself, those
   * that name it, and what requires these. Otherwise some removed unit may still be started.
   */
  lemma CheckCoversRemoval(t: UnitTable, rm: UnitId)
    requires Closed(t) && WellKeyed(t) && rm in t
    ensures (forall x :: x in RemovalSet(t, rm) ==> x in Checked(t, rm)) <==>
      (forall st: StatusMap, x :: CheckPasses(t, rm, st) && x in RemovalSet(t, rm) ==> x in st && st[x].Stopped?)
  {
    hide Checked;
    hide Reaches;
    forall st: StatusMap, x | CheckPasses(t, rm, st) && x in RemovalSet(t, rm) && x in Checked(t, rm) ensures x in st && st[x].Stopped? {
    }
    var st: StatusMap := map x | x in t :: if x in Checked(t, rm) then Stopped(StoppedFinal, []) else Started(Running);
    assert CheckPasses(t, rm, st);
    assert forall x :: x in RemovalSet(t, rm) ==> x in st;
  }

  /** If whatever names a referrer names the unit itself too, every removed unit is checked. */
  lemma NoIndirectReferrers(t: UnitTable, rm: UnitId)
    requires rm in t
    requires forall u, v :: Names(t, u, rm) && v in t && u in t[v].refsByName ==> v == rm || Names(t, v, rm)
    ensures forall x :: x in RemovalSet(t, rm) ==> x in Checked(t, rm)
  {
    var direct := set x | x in t && (x == rm || Names(t, x, rm));
    forall x | x in RemovalSet(t, rm) ensures x in Checked(t, rm) {
      if x !in direct {
        forall a, b | a !in direct && Edge(RefGraph(t), a, b) ensures b !in direct {
          assert b in t[a].refsByName;
        }
        ReachesStaysOut(RefGraph(t), direct, x, rm);
      }
      ReachesSelf(RelGraph(t, RequiredBy), x);
      assert Dependent(RelGraph(t, RequiredBy), [x], x);
      assert x in WithDependents(t, [x]);
      assert x == rm || DependsOnReferrer(t, rm, x);
    }
  }

  /** Three targets, `b` after `a` and `c` after `b`: as their files declare them, and with the edges of the other side. */
  function Chain(a: UnitId, b: UnitId, c: UnitId, filled: bool): UnitTable {
    map[a := Unit(a, Dependencies([], [], [], [], if filled then [b] else [], []), [], TargetSpecific),
        b := Unit(b, Dependencies([], [], [], [], if filled then [c] else [], [a]), [a], TargetSpecific),
        c := Unit(c, Dependencies([], [], [], [], [], [b]), [b], TargetSpecific)]
  }

  ghost predicate Targets(a: UnitId, b: UnitId, c: UnitId) {
    a != b && b != c && a != c && a.kind == Target && b.kind == Target && c.kind == Target
  }

  lemma ChainEdges(a: UnitId, b: UnitId, c: UnitId)
    requires Targets(a, b, c)
    ensures forall u, r, v :: Has(Chain(a, b, c, false), u, r, v) <==> r == After && ((u == b && v == a) || (u == c && v == b))
    ensures forall u, r, v :: Has(Chain(a, b, c, true), u, r, v) <==>
      (r == After && ((u == b && v == a) || (u == c && v == b))) || (r == Before && ((u == a && v == b) || (u == b && v == c)))
  {
  }

  lemma ChainUnits(a: UnitId, b: UnitId, c: UnitId)
    requires Targets(a, b, c)
    ensures WellKeyed(Chain(a, b, c, false)) && WellKeyed(Chain(a, b, c, true))
    ensures forall u :: u in Chain(a, b, c, false) ==> u.kind == Target
    ensures SameUnits(Chain(a, b, c, false), Chain(a, b, c, true))
  {
  }

  lemma ChainIsParsed(a: UnitId, b: UnitId, c: UnitId)
    requires Targets(a, b, c)
    ensures forall u :: u in Chain(a, b, c, false) ==> AsParsed(Chain(a, b, c, false)[u])
  {
  }

  lemma ChainIsFilled(a: UnitId, b: UnitId, c: UnitId)
    requires Targets(a, b, c)
    ensures WellKeyed(Chain(a, b, c, false)) && Closed(Chain(a, b, c, false))
    ensures forall u :: u in Chain(a, b, c, false) ==> AsParsed(Chain(a, b, c, false)[u])
    ensures Filled(Chain(a, b, c, false), Chain(a, b, c, true))
  {
    hide WellKeyed;
    hide AsParsed;
    hide SameUnits;
    hide Filled;
    var t, t' := Chain(a, b, c, false), Chain(a, b, c, true);
    assert t.Keys == {a, b, c};
    ChainUnits(a, b, c);
    ChainIsParsed(a, b, c);
    ChainEdges(a, b, c);
    hide Chain;
    hide Has;
    forall u, r, v ensures Has(t', u, r, v) <==> Has(t, u, r, v) || Has(t, v, Mirror(r), u) {
    }
    TargetsFilled(t, t');
  }

  lemma ChainChecked(a: UnitId, b: UnitId, c: UnitId)
    requires Targets(a, b, c)
    ensures a in Checked(Chain(a, b, c, true), a) && c !in Checked(Chain(a, b, c, true), a)
  {
    var t := Chain(a, b, c, true);
    ChainEdges(a, b, c);
    forall u, x ensures x in WithDependents(t, [u]) <==> x == u {
      OnlyItself(t, u, x);
    }
    hide WithDependents;
    assert !Names(t, c, a);
  }

  lemma ChainRemoved(a: UnitId, b: UnitId, c: UnitId)
    requires Targets(a, b, c)
    ensures c in RemovalSet(Chain(a, b, c, true), a)
  {
    var t := Chain(a, b, c, true);
    var g := RefGraph(t);
    assert Edge(g, c, b) && Edge(g, b, a);
    ReachesSelf(g, a);
    ReachesStep(g, b, a, a);
    ReachesStep(g, c, b, a);
  }

  /**
   * Unchecked removals do occur in tables that come out of unit files: `c` names only `b`, which names the unit, and is
   * removed while it is started.
   */
  lemma IndirectReferrerEscapes(a: UnitId, b: UnitId, c: UnitId)
    requires Targets(a, b, c)
    ensures exists declared: UnitTable, t: UnitTable, st: StatusMap ::
      && (forall u :: u in declared ==> AsParsed(declared[u])) && Filled(declared, t)
      && a in t && c in t && CheckPasses(t, a, st) && c in RemovalSet(t, a) && st[c].Started?
  {
    hide Checked;
    hide RemovalSet;
    hide Filled;
    hide AsParsed;
    hide CheckPasses;
    var declared, t := Chain(a, b, c, false), Chain(a, b, c, true);
    var st := ChainStatuses(a, b, c);
    ChainIsFilled(a, b, c);
    ChainRemoved(a, b, c);
    ChainPasses(a, b, c);
  }

  function ChainStatuses(a: UnitId, b: UnitId, c: UnitId): StatusMap {
    map[a := Stopped(StoppedFinal, []), b := Stopped(StoppedFinal, []), c := Started(Running)]
  }

  lemma ChainPasses(a: UnitId, b: UnitId, c: UnitId)
    requires Targets(a, b, c)
    ensures CheckPasses(Chain(a, b, c, true), a, ChainStatuses(a, b, c))
  {
    hide Checked;
    hide Filled;
    hide Closed;
    hide Mirrored;
    hide WellKeyed;
    hide SocketsMirrored;
    hide AsParsed;
    ChainIsFilled(a, b, c);
    FillingEstablishesShape(Chain(a, b, c, false), Chain(a, b, c, true));
    ChainChecked(a, b, c);
    assert Chain(a, b, c, true).Keys == ChainStatuses(a, b, c).Keys;
  }

  lemma OnlyItself(t: UnitTable, id: UnitId, x: UnitId)
    requires (forall u, v :: !Has(t, u, RequiredBy, v))
    ensures x in WithDependents(t, [id]) <==> x == id
  {
    var g := RelGraph(t, RequiredBy);
    ReachesSelf(g, id);
    if Reaches(g, id, x) && x != id {
      var v := ReachesUnfold(g, id, x);
      assert Has(t, id, RequiredBy, v);
    }
  }
}
