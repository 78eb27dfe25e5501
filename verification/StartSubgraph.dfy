/** Which units have to be started to start a given unit. */
module StartSubgraph {
  import opened Units
  import opened Digraph
  import opened IdVectors

  /** An edge to everything that has to be started as well: after, wants and requires. */
  ghost function NeedsGraph(t: UnitTable): Graph {
    map u | u in t :: StartBefore(t[u].deps) + StartConcurrently(t[u].deps)
  }

  function StartBefore(d: Dependencies): seq<UnitId> {
    d.after
  }

  function StartConcurrently(d: Dependencies): seq<UnitId> {
    var ids := d.wants + d.requires_;
    Filter(ids, (set x | x in ids && x !in d.after))
  }

  lemma NeedsEdges(t: UnitTable)
    requires Closed(t)
    ensures ClosedGraph(NeedsGraph(t)) && NeedsGraph(t).Keys == t.Keys
    ensures forall u, v :: Edge(NeedsGraph(t), u, v) <==> u in t && t[u].deps.Needs(v)
  {
    var g := NeedsGraph(t);
    forall u, v ensures Edge(g, u, v) <==> u in t && t[u].deps.Needs(v) {
      if u in t {
        assert g[u] == StartBefore(t[u].deps) + StartConcurrently(t[u].deps);
      }
    }
    forall u, v | Edge(g, u, v) ensures v in g {
      assert Has(t, u, After, v) || Has(t, u, Wants, v) || Has(t, u, Requires, v);
    }
  }

  /** `x` is a seed or is needed, over any number of steps, by a seed. */
  ghost predicate NeededBy(t: UnitTable, seeds: seq<UnitId>, x: UnitId) {
    exists s :: s in seeds && Reaches(NeedsGraph(t), s, x)
  }

  ghost predicate NeededByOneOf(t: UnitTable, ids: seq<UnitId>, y: UnitId) {
    exists x :: x in ids && x in t && t[x].deps.Needs(y)
  }

  ghost predicate AllNeeded(t: UnitTable, seeds: seq<UnitId>, ids: seq<UnitId>) {
    forall x :: x in ids ==> x in t && NeededBy(t, seeds, x)
  }

  /** One round of the search: everything the ids need that is not among them yet. */
  method NextIds(ids: seq<UnitId>, t: UnitTable) returns (fresh_: seq<UnitId>)
    requires Closed(t) && forall x :: x in ids ==> x in t
    ensures forall y :: y in fresh_ <==> y !in ids && NeededByOneOf(t, ids, y)
    ensures forall y :: y in fresh_ ==> y in t
    ensures NamesUnique(t.Keys) ==> NoRepeat(fresh_)
  {
    var all: seq<UnitId> := [];
    for i := 0 to |ids|
      invariant forall y :: y in all <==> NeededByOneOf(t, ids[..i], y)
    {
      all := all + StartBefore(t[ids[i]].deps) + StartConcurrently(t[ids[i]].deps);
      assert ids[..i + 1] == ids[..i] + [ids[i]];
    }
    assert ids[..|ids|] == ids;
    AllInTable(t, ids, all);
    var deduped := Dedup(all);
    fresh_ := Filter(deduped, (set x | x in deduped && x !in ids));
    if NamesUnique(t.Keys) {
      DedupHasNoRepeat(all);
      FilterKeepsOrder(deduped, (set x | x in deduped && x !in ids));
    }
  }

  lemma AllInTable(t: UnitTable, ids: seq<UnitId>, all: seq<UnitId>)
    requires Closed(t) && forall x :: x in ids ==> x in t
    requires forall y :: y in all ==> NeededByOneOf(t, ids, y)
    ensures forall y :: y in all ==> y in t
  {
    forall y | y in all ensures y in t {
      var x :| x in ids && t[x].deps.Needs(y);
      assert Has(t, x, After, y) || Has(t, x, Wants, y) || Has(t, x, Requires, y);
    }
  }

  /** The ids become exactly what the seeds need, each once if the seeds were. */
  method CollectUnitStartSubgraph(seeds: seq<UnitId>, t: UnitTable) returns (ids: seq<UnitId>)
    requires Closed(t) && forall x :: x in seeds ==> x in t
    ensures forall x :: x in ids <==> NeededBy(t, seeds, x)
    ensures forall x :: x in ids ==> x in t
    ensures NoRepeat(seeds) && NamesUnique(t.Keys) ==> NoRepeat(ids)
  {
    hide Closed;
    hide NamesUnique;
    hide NoRepeat;
    hide NeededBy;
    hide NeededByOneOf;
    ids := seeds;
    SeedsAreNeeded(t, seeds);
    while true
      invariant seeds <= ids && AllNeeded(t, seeds, ids)
      invariant NoRepeat(seeds) && NamesUnique(t.Keys) ==> NoRepeat(ids)
      decreases |t.Keys - (set x | x in ids)|
    {
      var newIds := NextIds(ids, t);
      if newIds == [] {
        NeededStaysIn(t, seeds, ids);
        break;
      }
      NextIdsAreNeeded(t, seeds, ids, newIds);
      IdsLeftShrink(t.Keys, ids, newIds);
      if NoRepeat(ids) && NoRepeat(newIds) {
        NoRepeatConcat(ids, newIds);
      }
      ids := ids + newIds;
    }
  }

  lemma IdsLeftShrink(all: set<UnitId>, ids: seq<UnitId>, newIds: seq<UnitId>)
    requires newIds != [] && forall y :: y in newIds ==> y in all && y !in ids
    ensures |all - (set x | x in ids + newIds)| < |all - (set x | x in ids)|
  {
    ShrinksBy(all - (set x | x in ids), all - (set x | x in ids + newIds), newIds[0]);
  }

  lemma NoRepeatConcat(a: seq<UnitId>, b: seq<UnitId>)
    requires NoRepeat(a) && NoRepeat(b) && forall y :: y in b ==> y !in a
    ensures NoRepeat(a + b)
  {
    var c := a + b;
    forall i, j | 0 <= i < j < |c| ensures c[i] != c[j] {
      if i < |a| && j >= |a| {
        assert b[j - |a|] in b;
      }
    }
  }

  lemma ShrinksBy(a: set<UnitId>, b: set<UnitId>, x: UnitId)
    requires b <= a && x in a && x !in b
    ensures |b| < |a|
  {
    assert b <= a - {x};
    SubsetSize(b, a - {x});
  }

  lemma SubsetSize(a: set<UnitId>, b: set<UnitId>)
    requires a <= b
    ensures |a| <= |b|
  {
    if a != {} {
      var x :| x in a;
      SubsetSize(a - {x}, b - {x});
    }
  }

  lemma SeedsAreNeeded(t: UnitTable, seeds: seq<UnitId>)
    requires forall x :: x in seeds ==> x in t
    ensures AllNeeded(t, seeds, seeds)
  {
    forall x | x in seeds ensures NeededBy(t, seeds, x) {
      ReachesSelf(NeedsGraph(t), x);
    }
  }

  lemma NextIdsAreNeeded(t: UnitTable, seeds: seq<UnitId>, ids: seq<UnitId>, newIds: seq<UnitId>)
    requires Closed(t) && AllNeeded(t, seeds, ids)
    requires forall y :: y in newIds ==> y in t && NeededByOneOf(t, ids, y)
    ensures AllNeeded(t, seeds, ids + newIds)
  {
    NeedsEdges(t);
    forall y | y in newIds ensures NeededBy(t, seeds, y) {
      assert NeededByOneOf(t, ids, y);
      var x :| x in ids && x in t && t[x].deps.Needs(y);
      assert NeededBy(t, seeds, x);
      var s :| s in seeds && Reaches(NeedsGraph(t), s, x);
      assert Edge(NeedsGraph(t), x, y);
      ReachesAppend(NeedsGraph(t), s, x, y);
    }
  }

  /** Ids that need nothing beyond themselves contain everything their seeds need. */
  lemma NeededStaysIn(t: UnitTable, seeds: seq<UnitId>, ids: seq<UnitId>)
    requires Closed(t) && seeds <= ids
    requires forall y :: NeededByOneOf(t, ids, y) ==> y in ids
    ensures forall x :: NeededBy(t, seeds, x) ==> x in ids
  {
    NeedsEdges(t);
    var s := set x | x in ids;
    forall a, b | a in s && Edge(NeedsGraph(t), a, b) ensures b in s {
      assert NeededByOneOf(t, ids, b);
    }
    forall x | NeededBy(t, seeds, x) ensures x in ids {
      var y :| y in seeds && Reaches(NeedsGraph(t), y, x);
      ReachesStaysIn(NeedsGraph(t), s, y, x);
    }
  }
}
