/** Cutting a table down to a part of its units: pruning for a target, and dropping sockets no service uses. */
module Pruning {
  import opened Units
  import opened Digraph
  import opened IdVectors
  import opened StartSubgraph

  // ---------- cutting down ----------

  /** `t'` keeps the units `keep` of `t`, and of their edges those that stay inside. */
  ghost predicate Induced(t: UnitTable, t': UnitTable, keep: set<UnitId>) {
    && t'.Keys == t.Keys * keep
    && (forall u, r, v :: Has(t', u, r, v) <==> Has(t, u, r, v) && u in keep && v in keep)
    && (forall u :: u in t' ==> t'[u].id == t[u].id && t'[u].refsByName == t[u].refsByName)
  }

  lemma InducedKeepsClosed(t: UnitTable, t': UnitTable, keep: set<UnitId>)
    requires Induced(t, t', keep) && Closed(t)
    ensures Closed(t')
  {
    forall u, r, v | Has(t', u, r, v) ensures v in t' {
      assert Has(t, u, r, v);
    }
  }

  lemma InducedKeepsMirrored(t: UnitTable, t': UnitTable, keep: set<UnitId>)
    requires Induced(t, t', keep) && Mirrored(t)
    ensures Mirrored(t')
  {
    forall u, r, v | Has(t', u, r, v) ensures Has(t', v, Mirror(r), u) {
      assert Has(t, u, r, v);
    }
  }

  /** In every vector each id stands once, in the order of the names. */
  ghost predicate Deduped(t: UnitTable) {
    forall u, r: Rel :: u in t ==> SortedByName(t[u].deps.Get(r)) && NoRepeat(t[u].deps.Get(r))
  }

  // ---------- prune_units ----------

  function FilterDeps(d: Dependencies, keep: set<UnitId>): (r: Dependencies)
    ensures forall rel :: r.Get(rel) == Filter(d.Get(rel), keep)
  {
    Dependencies(Filter(d.wants, keep), Filter(d.wantedBy, keep), Filter(d.requires_, keep),
      Filter(d.requiredBy, keep), Filter(d.before, keep), Filter(d.after, keep))
  }

  function DedupDeps(d: Dependencies): (r: Dependencies)
    ensures forall rel :: r.Get(rel) == Dedup(d.Get(rel))
  {
    Dependencies(Dedup(d.wants), Dedup(d.wantedBy), Dedup(d.requires_),
      Dedup(d.requiredBy), Dedup(d.before), Dedup(d.after))
  }

  function FilterSpecific(s: Specific, keep: set<UnitId>): Specific {
    match s
    case ServiceSpecific(sockets) => ServiceSpecific(Filter(sockets, keep))
    case SocketSpecific(services) => SocketSpecific(Filter(services, keep))
    case TargetSpecific => TargetSpecific
  }

  function PruneUnit(u: Unit, keep: set<UnitId>): Unit {
    u.(deps := DedupDeps(FilterDeps(u.deps, keep)), specific := FilterSpecific(u.specific, keep))
  }

  function PruneTo(t: UnitTable, keep: set<UnitId>): UnitTable {
    map u | u in t && u in keep :: PruneUnit(t[u], keep)
  }

  lemma PruneIsInduced(t: UnitTable, keep: set<UnitId>)
    ensures Induced(t, PruneTo(t, keep), keep)
  {
    var t' := PruneTo(t, keep);
    forall u, r, v ensures Has(t', u, r, v) <==> Has(t, u, r, v) && u in keep && v in keep {
      if u in t' {
        assert t'[u].deps.Get(r) == Dedup(FilterDeps(t[u].deps, keep).Get(r)) == Dedup(Filter(t[u].deps.Get(r), keep));
      }
    }
  }

  /** What the unit needs: the reflexive-transitive closure over after, wants and requires. */
  ghost function NeededIds(t: UnitTable, start: UnitId): set<UnitId> {
    set x | x in t && Reaches(NeedsGraph(t), start, x)
  }

  predicate Named(t: UnitTable, name: string, id: UnitId) {
    id in t && id.name == name
  }

  /** None stands for the error that the target unit was not found; the table is then unchanged. */
  method PruneUnits(name: string, t: UnitTable) returns (ok: bool, t': UnitTable)
    requires WellKeyed(t) && Closed(t)
    ensures ok <==> exists id :: Named(t, name, id)
    ensures ok ==> exists id :: Named(t, name, id) && t' == PruneTo(t, NeededIds(t, id))
    ensures !ok ==> t' == t
  {
    hide PruneUnit;
    hide Closed;
    hide WellKeyed;
    hide NeededBy;
    t' := t;
    if id :| id in t && Named(t, name, id) {
      var toKeep := CollectUnitStartSubgraph([id], t);
      ghost var keep := set x | x in toKeep;
      CollectedAreNeeded(t, id, toKeep);
      t' := RemoveOthers(t, toKeep);
      t' := CleanupPruned(t', toKeep);
      assert t' == PruneTo(t, keep);
      assert Named(t, name, id);
      ok := true;
    } else {
      assert forall id :: !Named(t, name, id);
      ok := false;
    }
  }

  lemma CollectedAreNeeded(t: UnitTable, id: UnitId, ids: seq<UnitId>)
    requires forall x :: x in ids <==> NeededBy(t, [id], x)
    requires forall x :: x in ids ==> x in t
    ensures (set x | x in ids) == NeededIds(t, id)
  {
    forall x ensures NeededBy(t, [id], x) <==> Reaches(NeedsGraph(t), id, x) {
      if Reaches(NeedsGraph(t), id, x) {
        assert id in [id];
      }
    }
  }

  /** The first loop of the pruning: remove every unit that is not kept. */
  method RemoveOthers(t: UnitTable, toKeep: seq<UnitId>) returns (t': UnitTable)
    ensures t' == map u | u in t && u in toKeep :: t[u]
  {
    t' := t;
    var todo := t.Keys;
    while todo != {}
      invariant todo <= t.Keys
      invariant t' == map u | u in t && (u in toKeep || u in todo) :: t[u]
    {
      var id :| id in todo;
      if id !in toKeep {
        t' := t' - {id};
      }
      todo := todo - {id};
    }
  }

  /** The second loop: drop the removed ids from all vectors of the remaining units. */
  method CleanupPruned(t: UnitTable, toKeep: seq<UnitId>) returns (t': UnitTable)
    ensures t' == map u | u in t :: PruneUnit(t[u], (set x | x in toKeep))
  {
    hide PruneUnit;
    t' := t;
    var keep := set x | x in toKeep;
    var todo := t.Keys;
    while todo != {}
      invariant todo <= t.Keys && t'.Keys == t.Keys
      invariant forall u :: u in t ==> t'[u] == if u in todo then t[u] else PruneUnit(t[u], keep)
    {
      var id :| id in todo;
      t' := t'[id := PruneUnit(t'[id], keep)];
      todo := todo - {id};
    }
  }

  // ---------- what pruning keeps ----------

  /** Everything the kept units need is kept. */
  lemma NeededIdsClosed(t: UnitTable, start: UnitId)
    requires Closed(t) && start in t
    ensures start in NeededIds(t, start)
    ensures forall u, v :: u in NeededIds(t, start) && t[u].deps.Needs(v) ==> v in NeededIds(t, start)
  {
    NeedsEdges(t);
    ReachesSelf(NeedsGraph(t), start);
    forall u, v | u in NeededIds(t, start) && t[u].deps.Needs(v) ensures v in NeededIds(t, start) {
      assert Edge(NeedsGraph(t), u, v);
      ReachesAppend(NeedsGraph(t), start, u, v);
    }
  }

  /** Kept units still need each other after pruning. */
  lemma PrunedNeeds(t: UnitTable, keep: set<UnitId>, u: UnitId, v: UnitId)
    requires u in t && u in keep && v in keep && t[u].deps.Needs(v)
    ensures PruneTo(t, keep)[u].deps.Needs(v)
  {
    var d := DedupDeps(FilterDeps(t[u].deps, keep));
    assert PruneTo(t, keep)[u].deps == d;
  }

  /** In the pruned table the start unit still needs the same units. */
  lemma NeededIdsAfterPruning(t: UnitTable, start: UnitId)
    requires Closed(t) && start in t
    ensures NeededIds(PruneTo(t, NeededIds(t, start)), start) == NeededIds(t, start)
  {
    var keep := NeededIds(t, start);
    var t' := PruneTo(t, keep);
    NeededIdsClosed(t, start);
    PruneIsInduced(t, keep);
    InducedKeepsClosed(t, t', keep);
    NeededIdsClosed(t', start);
    NeedsStayNeeded(t, keep, start, NeededIds(t', start));
  }

  lemma NeedsStayNeeded(t: UnitTable, keep: set<UnitId>, start: UnitId, needed': set<UnitId>)
    requires Closed(t) && start in t && keep == NeededIds(t, start) && needed' <= keep && start in needed'
    requires forall u, v :: u in needed' && u in PruneTo(t, keep) && PruneTo(t, keep)[u].deps.Needs(v) ==> v in needed'
    ensures needed' == keep
  {
    NeedsEdges(t);
    NeededIdsClosed(t, start);
    forall u, v | u in needed' && Edge(NeedsGraph(t), u, v) ensures v in needed' {
      PrunedNeeds(t, keep, u, v);
    }
    forall x | x in keep ensures x in needed' {
      ReachesStaysIn(NeedsGraph(t), needed', start, x);
    }
  }

  /** Pruning for the same target again changes nothing. */
  lemma PruningTwice(t: UnitTable, start: UnitId)
    requires Closed(t) && NamesUnique(t.Keys) && start in t
    ensures var once := PruneTo(t, NeededIds(t, start));
      PruneTo(once, NeededIds(once, start)) == once
  {
    NeededIdsAfterPruning(t, start);
    PruneToTwice(t, NeededIds(t, start));
  }

  lemma PruneToTwice(t: UnitTable, keep: set<UnitId>)
    requires Closed(t) && NamesUnique(t.Keys)
    ensures PruneTo(PruneTo(t, keep), keep) == PruneTo(t, keep)
  {
    hide PruneUnit;
    hide Closed;
    hide NamesUnique;
    forall u | u in t ensures PruneUnit(PruneUnit(t[u], keep), keep) == PruneUnit(t[u], keep) {
      PruneUnitTwice(t, u, keep);
    }
  }

  lemma PruneUnitTwice(t: UnitTable, u: UnitId, keep: set<UnitId>)
    requires Closed(t) && NamesUnique(t.Keys) && u in t
    ensures PruneUnit(PruneUnit(t[u], keep), keep) == PruneUnit(t[u], keep)
  {
    var once := PruneUnit(t[u], keep);
    forall rel: Rel ensures Dedup(Filter(once.deps.Get(rel), keep)) == once.deps.Get(rel) {
      assert forall v :: v in t[u].deps.Get(rel) ==> Has(t, u, rel, v);
      DedupFilterTwice(t[u].deps.Get(rel), keep);
    }
    EqualDeps(DedupDeps(FilterDeps(once.deps, keep)), once.deps);
    match t[u].specific {
      case ServiceSpecific(sockets) => FilterAll(Filter(sockets, keep), keep);
      case SocketSpecific(services) => FilterAll(Filter(services, keep), keep);
      case TargetSpecific =>
    }
  }

  lemma DedupFilterTwice(s: seq<UnitId>, keep: set<UnitId>)
    requires NamesUniqueIn(s)
    ensures Dedup(Filter(Dedup(Filter(s, keep)), keep)) == Dedup(Filter(s, keep))
  {
    var once := Dedup(Filter(s, keep));
    FilterAll(once, keep);
    DedupHasNoRepeat(Filter(s, keep));
    DedupFixed(once);
  }

  lemma EqualDeps(a: Dependencies, b: Dependencies)
    requires forall rel: Rel :: a.Get(rel) == b.Get(rel)
    ensures a == b
  {
    assert a.Get(Wants) == b.Get(Wants) && a.Get(WantedBy) == b.Get(WantedBy);
    assert a.Get(Requires) == b.Get(Requires) && a.Get(RequiredBy) == b.Get(RequiredBy);
    assert a.Get(Before) == b.Get(Before) && a.Get(After) == b.Get(After);
  }

  lemma PruneDedups(t: UnitTable, keep: set<UnitId>)
    requires Closed(t) && NamesUnique(t.Keys)
    ensures Deduped(PruneTo(t, keep))
  {
    var t' := PruneTo(t, keep);
    forall u, r: Rel | u in t' ensures SortedByName(t'[u].deps.Get(r)) && NoRepeat(t'[u].deps.Get(r)) {
      assert forall v :: v in t[u].deps.Get(r) ==> Has(t, u, r, v);
      DedupHasNoRepeat(Filter(t[u].deps.Get(r), keep));
    }
  }

  /** Pruning keeps the table closed and mirrored, and no kept unit lists a pruned one. */
  lemma PruningKeepsShape(t: UnitTable, start: UnitId)
    requires WellKeyed(t) && Closed(t) && Mirrored(t) && SocketsMirrored(t) && start in t
    ensures var t' := PruneTo(t, NeededIds(t, start));
      && WellKeyed(t') && Closed(t') && Mirrored(t') && SocketsMirrored(t')
      && (forall srvc, sock :: ServiceLists(t', srvc, sock) ==> sock in t')
      && (forall sock, srvc :: SocketLists(t', sock, srvc) ==> srvc in t')
  {
    var keep := NeededIds(t, start);
    var t' := PruneTo(t, keep);
    PruneIsInduced(t, keep);
    InducedKeepsClosed(t, t', keep);
    InducedKeepsMirrored(t, t', keep);
    NeededIdsClosed(t, start);
    PruningKeepsListing(t, keep);
    PruningKeepsSockets(t, t', keep);
  }

  lemma PruningKeepsListing(t: UnitTable, keep: set<UnitId>)
    requires WellKeyed(t)
    ensures WellKeyed(PruneTo(t, keep))
    ensures forall srvc, sock :: ServiceLists(PruneTo(t, keep), srvc, sock) <==>
      ServiceLists(t, srvc, sock) && srvc in keep && sock in keep
    ensures forall srvc, sock :: SocketLists(PruneTo(t, keep), sock, srvc) <==>
      SocketLists(t, sock, srvc) && srvc in keep && sock in keep
  {
    hide DedupDeps;
    hide FilterDeps;
  }

  lemma PruningKeepsSockets(t: UnitTable, t': UnitTable, keep: set<UnitId>)
    requires SocketsMirrored(t) && t'.Keys == t.Keys * keep && keep <= t.Keys
    requires forall srvc, sock :: ServiceLists(t', srvc, sock) <==> ServiceLists(t, srvc, sock) && srvc in keep && sock in keep
    requires forall srvc, sock :: SocketLists(t', sock, srvc) <==> SocketLists(t, sock, srvc) && srvc in keep && sock in keep
    ensures SocketsMirrored(t')
    ensures forall srvc, sock :: ServiceLists(t', srvc, sock) ==> sock in t'
    ensures forall sock, srvc :: SocketLists(t', sock, srvc) ==> srvc in t'
  {
    forall srvc, sock | srvc in t' && sock in t' && srvc.kind == Service && sock.kind == Socket
      ensures ServiceLists(t', srvc, sock) <==> SocketLists(t', sock, srvc)
    {
      assert ServiceLists(t, srvc, sock) <==> SocketLists(t, sock, srvc);
    }
    hide ServiceLists;
    hide SocketLists;
  }

  // ---------- prune_unused_sockets and cleanup_removed_ids ----------

  predicate UnusedSocket(u: Unit) {
    u.specific.SocketSpecific? && u.specific.services == []
  }

  method PruneUnusedSockets(t: UnitTable) returns (t': UnitTable, removed: seq<UnitId>)
    ensures forall id :: id in removed <==> id in t && UnusedSocket(t[id])
    ensures t' == map u | u in t && !UnusedSocket(t[u]) :: t[u]
  {
    removed := [];
    var todo := t.Keys;
    while todo != {}
      invariant todo <= t.Keys
      invariant forall id :: id in removed <==> id in t && id !in todo && UnusedSocket(t[id])
    {
      var id :| id in todo;
      if UnusedSocket(t[id]) {
        removed := removed + [id];
      }
      todo := todo - {id};
    }
    t' := t;
    for i := 0 to |removed|
      invariant t' == map u | u in t && u !in removed[..i] :: t[u]
    {
      t' := t' - {removed[i]};
      assert removed[..i + 1] == removed[..i] + [removed[i]];
    }
    assert removed[..|removed|] == removed;
  }

  /** Dependencies::remove_id */
  function RemoveId(d: Dependencies, id: UnitId): (r: Dependencies)
    ensures forall rel :: r.Get(rel) == Without(d.Get(rel), id)
  {
    Dependencies(Without(d.wants, id), Without(d.wantedBy, id), Without(d.requires_, id),
      Without(d.requiredBy, id), Without(d.before, id), Without(d.after, id))
  }

  function RemoveIds(d: Dependencies, ids: seq<UnitId>): Dependencies
    decreases |ids|
  {
    if ids == [] then d else RemoveIds(RemoveId(d, ids[0]), ids[1..])
  }

  lemma {:induction false} RemoveIdsElements(d: Dependencies, ids: seq<UnitId>, rel: Rel)
    ensures forall v :: v in RemoveIds(d, ids).Get(rel) <==> v in d.Get(rel) && v !in ids
    decreases |ids|
  {
    if ids != [] {
      RemoveIdsElements(RemoveId(d, ids[0]), ids[1..], rel);
      assert ids == [ids[0]] + ids[1..];
    }
  }

  lemma {:induction false} RemoveIdsKeepsOrder(d: Dependencies, ids: seq<UnitId>, rel: Rel)
    requires SortedByName(d.Get(rel)) && NoRepeat(d.Get(rel))
    ensures SortedByName(RemoveIds(d, ids).Get(rel)) && NoRepeat(RemoveIds(d, ids).Get(rel))
    decreases |ids|
  {
    if ids != [] {
      WithoutKeepsOrder(d.Get(rel), ids[0]);
      RemoveIdsKeepsOrder(RemoveId(d, ids[0]), ids[1..], rel);
    }
  }

  lemma RemovingStaysDeduped(t: UnitTable, t': UnitTable, removed: seq<UnitId>)
    requires Deduped(t) && t'.Keys <= t.Keys && forall u :: u in t' ==> t'[u].deps == RemoveIds(t[u].deps, removed)
    ensures Deduped(t')
  {
    forall u, r: Rel | u in t' ensures SortedByName(t'[u].deps.Get(r)) && NoRepeat(t'[u].deps.Get(r)) {
      RemoveIdsKeepsOrder(t[u].deps, removed, r);
    }
  }

  method CleanupRemovedIds(t: UnitTable, removed: seq<UnitId>) returns (t': UnitTable)
    ensures t' == map u | u in t :: t[u].(deps := RemoveIds(t[u].deps, removed))
  {
    t' := t;
    var todo := t.Keys;
    while todo != {}
      invariant todo <= t.Keys && t'.Keys == t.Keys
      invariant forall u :: u in t ==>
        t'[u] == if u in todo then t[u] else t[u].(deps := RemoveIds(t[u].deps, removed))
    {
      var id :| id in todo;
      var deps := t[id].deps;
      for i := 0 to |removed|
        invariant RemoveIds(deps, removed[i..]) == RemoveIds(t[id].deps, removed)
      {
        assert removed[i..][1..] == removed[i + 1..];
        deps := RemoveId(deps, removed[i]);
      }
      t' := t'[id := t[id].(deps := deps)];
      todo := todo - {id};
    }
  }

  /** The two passes together: the sockets no service uses are gone, edges and all, and nothing dangles. */
  method DropUnusedSockets(t: UnitTable) returns (t': UnitTable)
    requires WellKeyed(t) && Closed(t) && Mirrored(t) && SocketsMirrored(t)
    ensures Induced(t, t', (set u | u in t && !UnusedSocket(t[u])))
    ensures WellKeyed(t') && Closed(t') && Mirrored(t') && SocketsMirrored(t')
    ensures forall u :: u in t' ==> t'[u].specific == t[u].specific
    ensures forall srvc, sock :: ServiceLists(t', srvc, sock) && sock in t ==> sock in t'
    ensures Deduped(t) ==> Deduped(t')
  {
    hide Deduped;
    var pruned, removed := PruneUnusedSockets(t);
    t' := CleanupRemovedIds(pruned, removed);
    ghost var keep := set u | u in t && !UnusedSocket(t[u]);
    DropIsInduced(t, t', removed);
    InducedKeepsClosed(t, t', keep);
    InducedKeepsMirrored(t, t', keep);
    ServicesKeepSockets(t, t');
    if Deduped(t) {
      RemovingStaysDeduped(t, t', removed);
    }
  }

  lemma DropIsInduced(t: UnitTable, t': UnitTable, removed: seq<UnitId>)
    requires Closed(t)
    requires forall id :: id in removed <==> id in t && UnusedSocket(t[id])
    requires t' == map u | u in t && !UnusedSocket(t[u]) :: t[u].(deps := RemoveIds(t[u].deps, removed))
    ensures Induced(t, t', (set u | u in t && !UnusedSocket(t[u])))
  {
    var keep := set u | u in t && !UnusedSocket(t[u]);
    forall u, r, v ensures Has(t', u, r, v) <==> Has(t, u, r, v) && u in keep && v in keep {
      if u in t' {
        RemoveIdsElements(t[u].deps, removed, r);
        assert Has(t, u, r, v) ==> v in t;
      }
    }
  }

  /** A socket that some service lists has a service itself, so it is not dropped. */
  lemma ServicesKeepSockets(t: UnitTable, t': UnitTable)
    requires WellKeyed(t) && SocketsMirrored(t)
    requires t'.Keys == set u | u in t && !UnusedSocket(t[u])
    requires forall u :: u in t' ==> t'[u].specific == t[u].specific && t'[u].id == t[u].id
    ensures SocketsMirrored(t') && WellKeyed(t')
    ensures forall srvc, sock :: ServiceLists(t', srvc, sock) && sock in t ==> sock in t'
  {
    forall srvc, sock | ServiceLists(t', srvc, sock) && sock in t ensures sock in t' {
      assert ServiceLists(t, srvc, sock);
      if sock.kind == Socket {
        assert SocketLists(t, sock, srvc);
      }
    }
    forall srvc, sock | srvc in t' && sock in t' && srvc.kind == Service && sock.kind == Socket
      ensures ServiceLists(t', srvc, sock) <==> SocketLists(t', sock, srvc)
    {
      assert ServiceLists(t, srvc, sock) <==> SocketLists(t, sock, srvc);
    }
  }
}
