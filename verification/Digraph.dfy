/** Finite directed graphs: paths, cycles, ranks, and the pigeonhole argument that links them. */
module Digraph {
  import opened Units

  type Graph = map<UnitId, seq<UnitId>>

  predicate Edge(g: Graph, u: UnitId, v: UnitId) {
    u in g && v in g[u]
  }

  ghost predicate ClosedGraph(g: Graph) {
    forall u, v :: Edge(g, u, v) ==> v in g
  }

  predicate IsPath(g: Graph, p: seq<UnitId>) {
    |p| > 0 && forall i :: 0 <= i < |p| - 1 ==> Edge(g, p[i], p[i + 1])
  }

  predicate IsCycle(g: Graph, c: seq<UnitId>) {
    IsPath(g, c) && Edge(g, c[|c| - 1], c[0])
  }

  ghost predicate Acyclic(g: Graph) {
    forall c :: !IsCycle(g, c)
  }

  /** `v` can be reached from `u` over zero or more edges. */
  ghost predicate Reaches(g: Graph, u: UnitId, v: UnitId) {
    exists p :: IsPath(g, p) && p[0] == u && p[|p| - 1] == v
  }

  /** A rank falls along every edge. */
  ghost predicate RankedBy(g: Graph, r: map<UnitId, nat>) {
    g.Keys <= r.Keys && forall u, v :: Edge(g, u, v) ==> v in r && r[v] < r[u]
  }

  // ---------- reachability ----------

  lemma ReachesSelf(g: Graph, u: UnitId)
    ensures Reaches(g, u, u)
  {
    assert IsPath(g, [u]);
  }

  lemma ReachesStep(g: Graph, u: UnitId, v: UnitId, w: UnitId)
    requires Edge(g, u, v) && Reaches(g, v, w)
    ensures Reaches(g, u, w)
  {
    var p :| IsPath(g, p) && p[0] == v && p[|p| - 1] == w;
    assert IsPath(g, [u] + p);
  }

  lemma ReachesAppend(g: Graph, u: UnitId, v: UnitId, w: UnitId)
    requires Reaches(g, u, v) && Edge(g, v, w)
    ensures Reaches(g, u, w)
  {
    var p :| IsPath(g, p) && p[0] == u && p[|p| - 1] == v;
    assert IsPath(g, p + [w]);
  }

  /** Reaching more than oneself starts with an edge. */
  lemma ReachesUnfold(g: Graph, u: UnitId, w: UnitId) returns (v: UnitId)
    requires Reaches(g, u, w) && u != w
    ensures Edge(g, u, v) && Reaches(g, v, w)
  {
    var p :| IsPath(g, p) && p[0] == u && p[|p| - 1] == w;
    v := p[1];
    var q := p[1..];
    forall i | 0 <= i < |q| - 1 ensures Edge(g, q[i], q[i + 1]) {
      assert Edge(g, p[i + 1], p[i + 1 + 1]);
    }
  }

  /** A set that contains `u` and is closed under edges contains everything reachable from `u`. */
  lemma ReachesStaysIn(g: Graph, s: set<UnitId>, u: UnitId, w: UnitId)
    requires u in s && Reaches(g, u, w)
    requires forall a, b :: a in s && Edge(g, a, b) ==> b in s
    ensures w in s
  {
    var p :| IsPath(g, p) && p[0] == u && p[|p| - 1] == w;
    var i := 0;
    while i < |p| - 1
      invariant 0 <= i < |p| && p[i] in s
    {
      assert Edge(g, p[i], p[i + 1]);
      i := i + 1;
    }
  }

  /** From outside a set that no edge enters one does not reach into it. */
  lemma ReachesStaysOut(g: Graph, gone: set<UnitId>, u: UnitId, w: UnitId)
    requires u !in gone && Reaches(g, u, w)
    requires forall a, b :: a !in gone && Edge(g, a, b) ==> b !in gone
    ensures w !in gone
  {
    var p :| IsPath(g, p) && p[0] == u && p[|p| - 1] == w;
    var i := 0;
    while i < |p| - 1
      invariant 0 <= i < |p| && p[i] !in gone
    {
      assert Edge(g, p[i], p[i + 1]);
      i := i + 1;
    }
  }

  lemma ReachesInLarger(g: Graph, h: Graph, u: UnitId, w: UnitId)
    requires Reaches(g, u, w) && forall a, b :: Edge(g, a, b) ==> Edge(h, a, b)
    ensures Reaches(h, u, w)
  {
    var p :| IsPath(g, p) && p[0] == u && p[|p| - 1] == w;
    forall i | 0 <= i < |p| - 1 ensures Edge(h, p[i], p[i + 1]) {
      assert Edge(g, p[i], p[i + 1]);
    }
    assert IsPath(h, p);
  }

  lemma ReachesTransitive(g: Graph, u: UnitId, v: UnitId, w: UnitId)
    requires Reaches(g, u, v) && Reaches(g, v, w)
    ensures Reaches(g, u, w)
  {
    var p :| IsPath(g, p) && p[0] == u && p[|p| - 1] == v;
    var q :| IsPath(g, q) && q[0] == v && q[|q| - 1] == w;
    var r := p + q[1..];
    forall i | 0 <= i < |r| - 1 ensures Edge(g, r[i], r[i + 1]) {
      if i >= |p| - 1 {
        assert Edge(g, q[i - (|p| - 1)], q[i - (|p| - 1) + 1]);
      }
    }
    assert IsPath(g, r);
  }

  // ---------- ranks and cycles ----------

  lemma RankFallsAlongPath(g: Graph, r: map<UnitId, nat>, p: seq<UnitId>)
    requires RankedBy(g, r) && IsPath(g, p) && p[0] in r
    ensures p[|p| - 1] in r && r[p[|p| - 1]] <= r[p[0]]
  {
    var i := 0;
    while i < |p| - 1
      invariant 0 <= i < |p| && p[i] in r && r[p[i]] <= r[p[0]]
    {
      assert Edge(g, p[i], p[i + 1]);
      i := i + 1;
    }
  }

  lemma RankedIsAcyclic(g: Graph, r: map<UnitId, nat>)
    requires RankedBy(g, r)
    ensures Acyclic(g)
  {
    forall c ensures !IsCycle(g, c) {
      if IsCycle(g, c) {
        assert Edge(g, c[|c| - 1], c[0]);
        RankFallsAlongPath(g, r, c);
      }
    }
  }

  ghost predicate NoRepeat(p: seq<UnitId>) {
    forall i, j :: 0 <= i < j < |p| ==> p[i] != p[j]
  }

  lemma NoRepeatFits(p: seq<UnitId>, s: set<UnitId>)
    requires NoRepeat(p) && forall x :: x in p ==> x in s
    ensures |p| <= |s|
  {
    if |p| > 0 {
      var q := p[..|p| - 1];
      var last := p[|p| - 1];
      forall x | x in q ensures x in s - {last} {}
      NoRepeatFits(q, s - {last});
      assert last in s;
      assert |s - {last}| == |s| - 1;
    }
  }

  /** A walk whose last node has an edge back to one of its nodes ends in a cycle. */
  lemma CloseWalk(g: Graph, p: seq<UnitId>, v: UnitId) returns (c: seq<UnitId>)
    requires IsPath(g, p) && v in p && Edge(g, p[|p| - 1], v)
    ensures IsCycle(g, c) && forall x :: x in c ==> x in p
  {
    var k :| 0 <= k < |p| && p[k] == v;
    c := p[k..];
    forall i | 0 <= i < |c| - 1 ensures Edge(g, c[i], c[i + 1]) {
      assert Edge(g, p[k + i], p[k + i + 1]);
    }
  }

  lemma ExtendWalk(g: Graph, p: seq<UnitId>, v: UnitId)
    requires IsPath(g, p) && NoRepeat(p) && v !in p && Edge(g, p[|p| - 1], v)
    ensures IsPath(g, p + [v]) && NoRepeat(p + [v])
    ensures forall x :: x in p + [v] ==> x in p || x == v
  {
  }

  ghost predicate HasEdgeInto(g: Graph, u: UnitId, s: set<UnitId>) {
    exists v :: v in s && Edge(g, u, v)
  }

  /** From any node of a set in which every node has an edge into the set one can walk until a node repeats. */
  lemma WalkFindsCycle(g: Graph, s: set<UnitId>, p: seq<UnitId>) returns (c: seq<UnitId>)
    requires IsPath(g, p) && NoRepeat(p) && forall x :: x in p ==> x in s
    requires forall u :: u in s ==> HasEdgeInto(g, u, s)
    ensures IsCycle(g, c) && forall x :: x in c ==> x in s
    decreases |s| - |p|
  {
    hide NoRepeat;
    hide Edge;
    NoRepeatFits(p, s);
    var u := p[|p| - 1];
    assert HasEdgeInto(g, u, s);
    var v :| v in s && Edge(g, u, v);
    if v in p {
      c := CloseWalk(g, p, v);
    } else {
      ExtendWalk(g, p, v);
      NoRepeatFits(p + [v], s);
      c := WalkFindsCycle(g, s, p + [v]);
    }
  }

  /** In an acyclic graph every nonempty finite set has a node without an edge into the set. */
  lemma AcyclicHasSink(g: Graph, s: set<UnitId>) returns (u: UnitId)
    requires Acyclic(g) && s != {}
    ensures u in s && forall v :: Edge(g, u, v) ==> v !in s
  {
    if forall u :: u in s ==> HasEdgeInto(g, u, s) {
      var x :| x in s;
      assert IsPath(g, [x]);
      var c := WalkFindsCycle(g, s, [x]);
      assert false;
    }
    u :| u in s && !HasEdgeInto(g, u, s);
  }

  /** A closed acyclic graph has a rank: peel off sinks. */
  lemma PartialRank(g: Graph, s: set<UnitId>) returns (r: map<UnitId, nat>)
    requires Acyclic(g) && s <= g.Keys
    requires forall u, v :: u in s && Edge(g, u, v) ==> v in s
    ensures r.Keys == s
    ensures forall u :: u in r ==> r[u] < |s|
    ensures forall u, v :: u in s && Edge(g, u, v) ==> r[v] < r[u]
  {
    if s == {} {
      r := map[];
    } else {
      var top := AcyclicHasSource(g, s);
      r := PartialRank(g, s - {top});
      r := r[top := |s| - 1];
    }
  }

  /** The mirror image: a node of the set that no node of the set points to. */
  lemma AcyclicHasSource(g: Graph, s: set<UnitId>) returns (u: UnitId)
    requires Acyclic(g) && s != {} && s <= g.Keys
    ensures u in s && forall v :: v in s ==> !Edge(g, v, u)
  {
    var h: Graph := map x | x in s :: BackEdges(g, s, x);
    forall c ensures !IsCycle(h, c) {
      if IsCycle(h, c) {
        ReverseCycle(g, s, h, c);
      }
    }
    u := AcyclicHasSink(h, s);
    forall v | v in s ensures !Edge(g, v, u) {
      assert Edge(h, u, v) <==> Edge(g, v, u);
    }
  }

  ghost function BackEdges(g: Graph, s: set<UnitId>, x: UnitId): (r: seq<UnitId>)
    ensures forall y :: y in r <==> y in s && Edge(g, y, x)
    decreases s
  {
    if s == {} then []
    else
      var y :| y in s;
      var rest := BackEdges(g, s - {y}, x);
      assert s == {y} + (s - {y});
      if Edge(g, y, x) then [y] + rest else rest
  }

  ghost function Reverse(p: seq<UnitId>): (r: seq<UnitId>)
    ensures |r| == |p| && forall i :: 0 <= i < |p| ==> r[i] == p[|p| - 1 - i]
  {
    seq(|p|, i requires 0 <= i < |p| => p[|p| - 1 - i])
  }

  lemma ReverseCycle(g: Graph, s: set<UnitId>, h: Graph, c: seq<UnitId>)
    requires IsCycle(h, c)
    requires forall x, y :: Edge(h, x, y) ==> Edge(g, y, x)
    ensures IsCycle(g, Reverse(c))
  {
    var r := Reverse(c);
    forall i | 0 <= i < |r| - 1 ensures Edge(g, r[i], r[i + 1]) {
      var j := |c| - 2 - i;
      assert r[i] == c[j + 1] && r[i + 1] == c[j];
      assert Edge(h, c[j], c[j + 1]);
    }
  }

  lemma AcyclicHasRank(g: Graph) returns (r: map<UnitId, nat>)
    requires Acyclic(g) && ClosedGraph(g)
    ensures RankedBy(g, r)
  {
    r := PartialRank(g, g.Keys);
  }

  // ---------- the graphs of a table ----------

  /** A rank for some of the nodes and everything that they reach. */
  ghost predicate RankedPart(g: Graph, r: map<UnitId, nat>) {
    forall u, v :: u in r && Edge(g, u, v) ==> v in r && r[v] < r[u]
  }

  /** A node from which no cycle can be reached has such a rank; cycles elsewhere do not matter. */
  lemma ReachesNoCycleHasRank(g: Graph, u: UnitId) returns (r: map<UnitId, nat>)
    requires ClosedGraph(g) && u in g
    requires forall c :: IsCycle(g, c) ==> !Reaches(g, u, c[0])
    ensures u in r && RankedPart(g, r)
  {
    var h := map x | x in g && Reaches(g, u, x) :: g[x];
    ReachesSelf(g, u);
    forall x, y | Edge(h, x, y) ensures y in h && Edge(g, x, y) {
      assert Edge(g, x, y);
      ReachesAppend(g, u, x, y);
    }
    forall c ensures !IsCycle(h, c) {
      if IsCycle(h, c) {
        assert Edge(h, c[|c| - 1], c[0]);
        assert IsCycle(g, c);
      }
    }
    var rank := AcyclicHasRank(h);
    r := map x | x in h :: rank[x];
    forall x, y | x in r && Edge(g, x, y) ensures y in r && r[y] < r[x] {
      assert Edge(h, x, y);
    }
  }

  ghost function RelGraph(t: UnitTable, r: Rel): Graph {
    map u | u in t :: t[u].deps.Get(r)
  }

  ghost function BeforeGraph(t: UnitTable): Graph { RelGraph(t, Before) }

  ghost function AfterGraph(t: UnitTable): Graph { RelGraph(t, After) }

  lemma RelGraphClosed(t: UnitTable, r: Rel)
    requires Closed(t)
    ensures ClosedGraph(RelGraph(t, r))
    ensures forall u, v :: Edge(RelGraph(t, r), u, v) <==> Has(t, u, r, v)
  {
    forall u, v ensures Edge(RelGraph(t, r), u, v) <==> Has(t, u, r, v) {}
    forall u, v | Edge(RelGraph(t, r), u, v) ensures v in RelGraph(t, r) {
      assert Has(t, u, r, v);
    }
  }

  lemma AfterEdgesTurned(t: UnitTable)
    requires Mirrored(t)
    ensures forall u, v :: Edge(AfterGraph(t), u, v) ==> Edge(BeforeGraph(t), v, u)
  {
    forall u, v | Edge(AfterGraph(t), u, v) ensures Edge(BeforeGraph(t), v, u) {
      assert Has(t, u, After, v);
      assert Has(t, v, Mirror(After), u);
    }
  }

  lemma ReverseElements(c: seq<UnitId>)
    ensures forall x :: x in Reverse(c) ==> x in c
  {
    forall x | x in Reverse(c) ensures x in c {
      var i :| 0 <= i < |Reverse(c)| && Reverse(c)[i] == x;
      assert c[|c| - 1 - i] == x;
    }
  }

  lemma AfterIsAcyclic(t: UnitTable)
    requires Mirrored(t) && Acyclic(BeforeGraph(t))
    ensures Acyclic(AfterGraph(t))
  {
    AfterEdgesTurned(t);
    forall c ensures !IsCycle(AfterGraph(t), c) {
      if IsCycle(AfterGraph(t), c) {
        ReverseCycle(BeforeGraph(t), t.Keys, AfterGraph(t), c);
      }
    }
  }
}
