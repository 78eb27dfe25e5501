/** The check that the ordering edges form a DAG: a depth-first search that marks units as finished. */
module SanityCheck {
  import opened Units
  import opened Digraph
  import opened IdVectors

  datatype SanityResult = Ok | CirclesFound(circles: seq<seq<UnitId>>)

  datatype SearchResult = NoCircle | Circle(ids: seq<UnitId>)

  ghost predicate ContainsCycle(g: Graph, ids: seq<UnitId>) {
    exists c :: IsCycle(g, c) && forall x :: x in c ==> x in ids
  }

  /** The part of the path from the revisited unit on. */
  method CircleOnPath(ghost g: Graph, visited: seq<UnitId>, id: UnitId) returns (circle: seq<UnitId>)
    requires IsPath(g, visited) && NoRepeat(visited) && id in visited && Edge(g, visited[|visited| - 1], id)
    ensures IsCycle(g, circle) && NoRepeat(circle) && circle != [] && forall x :: x in circle ==> x in visited
  {
    var start := 0;
    while visited[start] != id
      invariant 0 <= start < |visited| && id in visited[start..]
      decreases |visited| - start
    {
      start := start + 1;
    }
    circle := visited[start..];
    forall i | 0 <= i < |circle| - 1 ensures Edge(g, circle[i], circle[i + 1]) {
      assert Edge(g, visited[start + i], visited[start + i + 1]);
    }
  }

  /** The current DFS path: consecutive `before` edges through unfinished units, none twice. */
  ghost predicate SearchPath(g: Graph, path: seq<UnitId>, notFinished: set<UnitId>) {
    && (path == [] || IsPath(g, path))
    && NoRepeat(path)
    && forall x :: x in path ==> x in notFinished
  }

  lemma SearchPathGrows(g: Graph, path: seq<UnitId>, notFinished: set<UnitId>, id: UnitId)
    requires SearchPath(g, path, notFinished) && id !in path && id in notFinished
    requires path == [] || Edge(g, path[|path| - 1], id)
    ensures SearchPath(g, path + [id], notFinished)
  {
  }

  lemma SearchPathFits(g: Graph, path: seq<UnitId>, notFinished: set<UnitId>, all: set<UnitId>)
    requires SearchPath(g, path, notFinished) && notFinished <= all
    ensures |path| <= |all|
  {
    NoRepeatFits(path, all);
  }

  lemma SearchPathShrinks(g: Graph, path: seq<UnitId>, notFinished: set<UnitId>, id: UnitId)
    requires SearchPath(g, path + [id], notFinished)
    ensures SearchPath(g, path, notFinished - {id}) && id in notFinished
  {
    var longer := path + [id];
    assert longer[|path|] == id;
    forall i | 0 <= i < |path| - 1 ensures Edge(g, path[i], path[i + 1]) {
      assert Edge(g, longer[i], longer[i + 1]);
    }
    forall i, j | 0 <= i < j < |path| ensures path[i] != path[j] {
      assert longer[i] != longer[j];
    }
    forall x | x in path ensures x in notFinished - {id} {
      var i :| 0 <= i < |path| && path[i] == x;
      assert longer[i] != longer[|path|];
    }
  }

  /**
   * The rank of the units that were finished in order, after everything they come before; the other finished units are
   * those of reported circles.
   */
  ghost predicate FinishOrder(g: Graph, finished: set<UnitId>, circled: set<UnitId>, rank: map<UnitId, nat>) {
    && circled <= finished && rank.Keys == finished - circled
    && (forall u :: u in rank ==> rank[u] < |finished|)
    && (forall u, v :: u in rank && Edge(g, u, v) ==> v in circled || (v in rank && rank[v] < rank[u]))
  }

  lemma FinishOrderGrows(g: Graph, finished: set<UnitId>, circled: set<UnitId>, rank: map<UnitId, nat>, id: UnitId)
    requires FinishOrder(g, finished, circled, rank)
    requires id !in finished && forall v :: Edge(g, id, v) ==> v in finished
    ensures FinishOrder(g, finished + {id}, circled, rank[id := |finished|])
  {
  }

  /** The units of a new circle are finished out of order. */
  lemma FinishCircle(g: Graph, finished: set<UnitId>, circled: set<UnitId>, rank: map<UnitId, nat>, circle: set<UnitId>)
    requires FinishOrder(g, finished, circled, rank) && circle !! finished
    ensures FinishOrder(g, finished + circle, circled + circle, rank)
  {
    assert |finished + circle| == |finished| + |circle|;
  }

  /** Along a cycle without a circled unit the rank would fall for ever. */
  lemma {:induction false} NoEndlessFall(g: Graph, finished: set<UnitId>, circled: set<UnitId>, rank: map<UnitId, nat>,
      c: seq<UnitId>, i: nat)
    requires FinishOrder(g, finished, circled, rank) && IsCycle(g, c) && i < |c| && c[i] in rank
    ensures exists x :: x in c && x in circled
    decreases rank[c[i]]
  {
    var next := if i + 1 < |c| then i + 1 else 0;
    assert Edge(g, c[i], c[next]);
    if c[next] !in circled {
      NoEndlessFall(g, finished, circled, rank, c, next);
    }
  }

  /** A cycle lies outside the finished units or meets a reported circle. */
  lemma FinishedCyclesAreCircled(g: Graph, finished: set<UnitId>, circled: set<UnitId>, rank: map<UnitId, nat>, c: seq<UnitId>)
    requires FinishOrder(g, finished, circled, rank) && IsCycle(g, c)
    ensures (forall x :: x in c ==> x !in finished) || exists x :: x in c && x in circled
  {
    if i :| 0 <= i < |c| && c[i] in finished {
      if c[i] in rank {
        NoEndlessFall(g, finished, circled, rank, c, i);
      } else {
        assert c[i] in c && c[i] in circled;
      }
    }
  }

  /** The graph that the search walks: the `before` vectors. */
  ghost predicate Searches(g: Graph, t: UnitTable) {
    && g.Keys == t.Keys
    && ClosedGraph(g)
    && forall u :: u in t ==> g[u] == t[u].deps.before
  }

  lemma SearchesBefore(t: UnitTable)
    requires Closed(t)
    ensures Searches(BeforeGraph(t), t)
  {
    RelGraphClosed(t, Before);
  }

  ghost function UnitSet(ids: seq<UnitId>): set<UnitId> {
    set x | x in ids
  }

  /** A cycle of units that were not finished before, none twice. */
  ghost predicate IsNewCircle(g: Graph, c: seq<UnitId>, notFinished: set<UnitId>) {
    IsCycle(g, c) && NoRepeat(c) && forall x :: x in c ==> x in notFinished
  }

  lemma NewBefore(g: Graph, c: seq<UnitId>, notFinished: set<UnitId>, before: set<UnitId>)
    requires IsNewCircle(g, c, notFinished) && notFinished <= before
    ensures IsNewCircle(g, c, before)
  {
  }

  /** The three collections that the search updates in place. */
  class BackedgeSearch {
    const t: UnitTable
    ghost const g: Graph
    var visited: seq<UnitId>
    var finished: set<UnitId>
    var notFinished: set<UnitId>
    /** The units of the circles found so far, and the rank of the other finished ones. */
    ghost var circled: set<UnitId>
    ghost var rank: map<UnitId, nat>

    constructor (t: UnitTable)
      requires Closed(t)
      ensures this.t == t && g == BeforeGraph(t) && Searches(g, t) && visited == [] && finished == {} && notFinished == t.Keys
      ensures circled == {} && Partition() && PathOk() && Ranked()
    {
      SearchesBefore(t);
      this.t, g := t, BeforeGraph(t);
      visited, finished, notFinished, circled, rank := [], {}, t.Keys, {}, map[];
    }

    ghost predicate Partition()
      reads this
    {
      finished + notFinished == t.Keys && finished !! notFinished
    }

    ghost predicate PathOk()
      reads this
    {
      SearchPath(g, visited, notFinished)
    }

    ghost predicate Ranked()
      reads this
    {
      FinishOrder(g, finished, circled, rank)
    }

    method SearchBackedge(id: UnitId) returns (r: SearchResult)
      requires Searches(g, t) && id in t && Partition() && Ranked() && PathOk()
      requires visited == [] || Edge(g, visited[|visited| - 1], id)
      modifies this
      ensures Partition() && old(finished) <= finished && notFinished <= old(notFinished)
      ensures r.NoCircle? ==> PathOk() && visited == old(visited) && id in finished
      ensures Ranked() && (r.NoCircle? ==> circled == old(circled))
      ensures r.Circle? ==> circled == old(circled) + UnitSet(r.ids)
      ensures r.Circle? ==> IsNewCircle(g, r.ids, old(notFinished)) && notFinished < old(notFinished)
      decreases |t| - |visited|, 1
    {
      hide FinishOrder;
      hide IsPath;
      if id in finished {
        return NoCircle;
      }
      if id in visited {
        var circle := CircleOnPath(g, visited, id);
        MarkFinished(circle);
        return Circle(circle);
      }
      SearchPathGrows(g, visited, notFinished, id);
      r := VisitUnit(id);
    }

    /** Push the unit, search everything it comes before, pop it and mark it as finished. */
    method VisitUnit(id: UnitId) returns (r: SearchResult)
      requires Searches(g, t) && id in t && Partition() && Ranked() && SearchPath(g, visited + [id], notFinished)
      modifies this
      ensures Partition() && old(finished) <= finished && notFinished <= old(notFinished)
      ensures r.NoCircle? ==> PathOk() && visited == old(visited) && id in finished
      ensures Ranked() && (r.NoCircle? ==> circled == old(circled))
      ensures r.Circle? ==> circled == old(circled) + UnitSet(r.ids)
      ensures r.Circle? ==> IsNewCircle(g, r.ids, old(notFinished)) && notFinished < old(notFinished)
      decreases |t| - |visited|, 0
    {
      hide SearchPath;
      hide FinishOrder;
      hide IsCycle;
      ghost var path := visited;
      visited := visited + [id];
      SearchPathFits(g, visited, notFinished, t.Keys);
      r := SearchSuccessors(id);
      if r.NoCircle? {
        visited := visited[..|visited| - 1];
        assert visited == path;
        FinishUnit(id);
      }
    }

    /** The loop over everything that the unit at the end of the path comes before. */
    method SearchSuccessors(id: UnitId) returns (r: SearchResult)
      requires Searches(g, t) && id in t && Partition() && Ranked() && PathOk()
      requires visited != [] && visited[|visited| - 1] == id
      modifies this
      ensures Partition() && old(finished) <= finished && notFinished <= old(notFinished)
      ensures r.NoCircle? ==> PathOk() && visited == old(visited)
      ensures r.NoCircle? ==> forall v :: Edge(g, id, v) ==> v in finished
      ensures Ranked() && (r.NoCircle? ==> circled == old(circled))
      ensures r.Circle? ==> circled == old(circled) + UnitSet(r.ids)
      ensures r.Circle? ==> IsNewCircle(g, r.ids, old(notFinished)) && notFinished < old(notFinished)
      decreases |t| - |visited|, 2
    {
      hide SearchPath;
      hide FinishOrder;
      hide IsNewCircle;
      hide UnitSet;
      var before := t[id].deps.before;
      SearchPathFits(g, visited, notFinished, t.Keys);
      for i := 0 to |before|
        invariant Partition() && PathOk() && visited == old(visited)
        invariant old(finished) <= finished && notFinished <= old(notFinished)
        invariant forall v :: v in before[..i] ==> v in finished
        invariant Ranked() && circled == old(circled)
      {
        assert Edge(g, id, before[i]);
        ghost var left := notFinished;
        r := SearchBackedge(before[i]);
        if r.Circle? {
          NewBefore(g, r.ids, left, old(notFinished));
          return;
        }
        assert before[..i + 1] == before[..i] + [before[i]];
      }
      assert before[..|before|] == before;
      r := NoCircle;
    }

    /** Everything the unit comes before is finished: now it is finished as well. */
    method FinishUnit(id: UnitId)
      requires Partition() && Ranked() && SearchPath(g, visited + [id], notFinished)
      requires forall v :: Edge(g, id, v) ==> v in finished
      modifies `finished, `notFinished, `rank
      ensures finished == old(finished) + {id} && notFinished == old(notFinished) - {id}
      ensures Partition() && PathOk() && Ranked()
    {
      hide SearchPath;
      hide FinishOrder;
      hide Edge;
      SearchPathShrinks(g, visited, notFinished, id);
      FinishOrderGrows(g, finished, circled, rank, id);
      rank := rank[id := |finished|];
      finished := finished + {id};
      notFinished := notFinished - {id};
    }

    method MarkFinished(circle: seq<UnitId>)
      requires Partition() && Ranked() && circle != [] && forall x :: x in circle ==> x in notFinished
      modifies `finished, `notFinished, `circled
      ensures finished == old(finished) + (set x | x in circle) && notFinished == old(notFinished) - (set x | x in circle)
      ensures Partition() && notFinished < old(notFinished)
      ensures Ranked() && circled == old(circled) + set x | x in circle
    {
      hide FinishOrder;
      for i := 0 to |circle|
        invariant finished == old(finished) + (set x | x in circle[..i])
        invariant notFinished == old(notFinished) - (set x | x in circle[..i]) && circled == old(circled)
      {
        assert circle[i] in circle;
        finished := finished + {circle[i]};
        notFinished := notFinished - {circle[i]};
      }
      assert circle[..|circle|] == circle;
      assert circle[0] in old(notFinished) && circle[0] in circle;
      FinishCircle(g, old(finished), circled, rank, set x | x in circle);
      circled := circled + set x | x in circle;
    }
  }

  predicate NoUnfinishedPredecessor(t: UnitTable, finished: set<UnitId>, id: UnitId)
    requires id in t
  {
    forall a :: a in t[id].deps.after ==> a in finished
  }

  /** Units that all wait for each other contain a cycle. */
  lemma WaitingUnitsContainCycle(t: UnitTable, waiting: set<UnitId>, ids: seq<UnitId>)
    requires Closed(t) && Mirrored(t) && waiting != {} && waiting <= t.Keys
    requires forall u :: u in waiting ==> HasEdgeInto(AfterGraph(t), u, waiting)
    requires forall x :: x in waiting ==> x in ids
    ensures ContainsCycle(BeforeGraph(t), ids)
  {
    var g := AfterGraph(t);
    var x :| x in waiting;
    assert IsPath(g, [x]);
    var c := WalkFindsCycle(g, waiting, [x]);
    AfterEdgesTurned(t);
    ReverseCycle(BeforeGraph(t), waiting, g, c);
    ReverseElements(c);
  }

  lemma StuckUnitsContainCycle(t: UnitTable, finished: set<UnitId>, waiting: set<UnitId>, ids: seq<UnitId>)
    requires Closed(t) && Mirrored(t) && finished + waiting == t.Keys && finished !! waiting && waiting != {}
    requires forall u :: u in waiting ==> !NoUnfinishedPredecessor(t, finished, u)
    requires forall x :: x in waiting ==> x in ids
    ensures ContainsCycle(BeforeGraph(t), ids)
  {
    StuckUnitsWait(t, finished, waiting);
    WaitingUnitsContainCycle(t, waiting, ids);
  }

  lemma StuckUnitsWait(t: UnitTable, finished: set<UnitId>, waiting: set<UnitId>)
    requires Closed(t) && finished + waiting == t.Keys && finished !! waiting
    requires forall u :: u in waiting ==> !NoUnfinishedPredecessor(t, finished, u)
    ensures forall u :: u in waiting ==> HasEdgeInto(AfterGraph(t), u, waiting)
  {
    forall u | u in waiting ensures HasEdgeInto(AfterGraph(t), u, waiting) {
      assert !NoUnfinishedPredecessor(t, finished, u);
      var a :| a in t[u].deps.after && a !in finished;
      assert Has(t, u, After, a);
      assert Edge(AfterGraph(t), u, a);
    }
  }

  /** Every list so far is a cycle; no unit is in two of them or twice in one; together they have the circled units. */
  ghost predicate Circles(g: Graph, circles: seq<seq<UnitId>>, circled: set<UnitId>) {
    && (forall i :: 0 <= i < |circles| ==> IsCycle(g, circles[i]) && NoRepeat(circles[i]))
    && (forall i, j, x :: 0 <= i < j < |circles| && x in circles[i] ==> x !in circles[j])
    && (forall x :: x in circled <==> InList(circles, x))
  }

  ghost predicate InList(circles: seq<seq<UnitId>>, x: UnitId) {
    exists i :: 0 <= i < |circles| && x in circles[i]
  }

  lemma InOneMore(circles: seq<seq<UnitId>>, c: seq<UnitId>)
    ensures forall x :: InList(circles + [c], x) <==> InList(circles, x) || x in c
  {
    var more := circles + [c];
    forall x ensures InList(more, x) <==> InList(circles, x) || x in c {
      if InList(circles, x) {
        var i :| 0 <= i < |circles| && x in circles[i];
        assert x in more[i];
      }
      if x in c {
        assert x in more[|circles|];
      }
      if InList(more, x) {
        var i :| 0 <= i < |more| && x in more[i];
        assert i < |circles| ==> x in circles[i];
      }
    }
  }

  lemma CirclesGrow(g: Graph, circles: seq<seq<UnitId>>, circled: set<UnitId>, c: seq<UnitId>)
    requires Circles(g, circles, circled) && IsCycle(g, c) && NoRepeat(c) && forall x :: x in c ==> x !in circled
    ensures Circles(g, circles + [c], circled + set x | x in c)
  {
    InOneMore(circles, c);
    forall i, x | 0 <= i < |circles| && x in circles[i] ensures x !in c {
      assert InList(circles, x);
    }
  }

  /** Units that each come after another one of them. */
  ghost predicate WaitForEachOther(t: UnitTable, ids: seq<UnitId>) {
    ids != [] && forall x :: x in ids ==> x in t && exists a :: a in t[x].deps.after && a in ids
  }

  /**
   * What is reported: cycles of `before`, and possibly, as the last list, units that wait for each other. No unit is in
   * two lists or twice in one, and no cycle of the table goes unnoticed.
   */
  ghost predicate HonestReport(t: UnitTable, circles: seq<seq<UnitId>>) {
    && circles != []
    && (forall i :: 0 <= i < |circles| - 1 ==> IsCycle(BeforeGraph(t), circles[i]))
    && (IsCycle(BeforeGraph(t), circles[|circles| - 1]) || WaitForEachOther(t, circles[|circles| - 1]))
    && (forall i :: 0 <= i < |circles| ==> NoRepeat(circles[i]))
    && (forall i, j, x :: 0 <= i < j < |circles| && x in circles[i] ==> x !in circles[j])
    && (forall c :: IsCycle(BeforeGraph(t), c) ==> exists x :: x in c && InList(circles, x))
  }

  /**
   * Ok is the verdict exactly when no unit comes, over any number of steps, before itself; whichever root is
   * picked next. Otherwise every cycle shows in the report, and nothing is in it without reason.
   */
  method SanityCheckDependencies(t: UnitTable) returns (r: SanityResult, ghost rank: map<UnitId, nat>)
    requires Closed(t) && Mirrored(t)
    ensures r.Ok? <==> Acyclic(BeforeGraph(t))
    ensures r.Ok? ==> RankedBy(BeforeGraph(t), rank)
    ensures r.CirclesFound? ==> HonestReport(t, r.circles)
  {
    hide Circles;
    hide HonestReport;
    hide FinishOrder;
    hide Acyclic;
    hide RankedBy;
    hide Closed;
    hide Mirrored;
    hide IsCycle;
    hide NoRepeat;
    ghost var g := BeforeGraph(t);
    var search := new BackedgeSearch(t);
    var circles: seq<seq<UnitId>> := [];
    NoCircles(g);
    while search.notFinished != {}
      invariant search.t == t && search.g == g && Searches(g, t) && search.Partition() && fresh(search)
      invariant search.Ranked() && Circles(g, circles, search.circled)
      decreases search.notFinished
    {
      if root :| root in search.notFinished && NoUnfinishedPredecessor(t, search.finished, root) {
        search.visited := [];
        ghost var circled := search.circled;
        CircledAreFinished(search);
        var res := search.SearchBackedge(root);
        match res {
          case NoCircle =>
            assert root !in search.notFinished && search.circled == circled;
          case Circle(ids) =>
            CirclesGrow(g, circles, circled, ids);
            assert search.circled == circled + set x | x in ids;
            circles := circles + [ids];
        }
      } else {
        var waiting := SetToSeq(search.notFinished);
        WaitingReport(t, search.finished, search.circled, search.rank, circles, waiting);
        return CirclesFound(circles + [waiting]), map[];
      }
    }
    rank := search.rank;
    if circles == [] {
      FinishOrderIsRank(t, search.finished, search.circled, rank);
      return Ok, rank;
    }
    FullReport(t, search.finished, search.circled, rank, circles);
    return CirclesFound(circles), map[];
  }

  lemma NoCircles(g: Graph)
    ensures Circles(g, [], {})
  {
  }

  lemma CircledAreFinished(search: BackedgeSearch)
    requires search.Ranked()
    ensures search.circled <= search.finished
  {
  }

  /** All units are finished: every cycle meets a circle. */
  lemma FullReport(t: UnitTable, finished: set<UnitId>, circled: set<UnitId>, rank: map<UnitId, nat>, circles: seq<seq<UnitId>>)
    requires Closed(t) && FinishOrder(BeforeGraph(t), finished, circled, rank) && finished == t.Keys
    requires circles != [] && Circles(BeforeGraph(t), circles, circled)
    ensures HonestReport(t, circles) && !Acyclic(BeforeGraph(t))
  {
    var g := BeforeGraph(t);
    forall c | IsCycle(g, c) ensures exists x :: x in c && InList(circles, x) {
      FinishedCyclesAreCircled(g, finished, circled, rank, c);
      assert Edge(g, c[|c| - 1], c[0]);
      assert c[|c| - 1] in c && c[|c| - 1] in t;
    }
    assert IsCycle(g, circles[0]);
  }

  /** The units that are left wait for each other; a cycle that meets no circle lies among them. */
  lemma WaitingReport(t: UnitTable, finished: set<UnitId>, circled: set<UnitId>, rank: map<UnitId, nat>,
      circles: seq<seq<UnitId>>, waiting: seq<UnitId>)
    requires Closed(t) && Mirrored(t) && FinishOrder(BeforeGraph(t), finished, circled, rank)
    requires Circles(BeforeGraph(t), circles, circled) && NoRepeat(waiting) && waiting != []
    requires finished <= t.Keys && forall x :: x in waiting <==> x in t && x !in finished
    requires forall u :: u in waiting ==> !NoUnfinishedPredecessor(t, finished, u)
    ensures HonestReport(t, circles + [waiting]) && !Acyclic(BeforeGraph(t))
  {
    hide Acyclic;
    hide IsCycle;
    hide NoRepeat;
    hide Circles;
    hide HonestReport;
    StuckIsCyclic(t, finished, waiting);
    LeftWait(t, finished, waiting);
    CircledFinished(BeforeGraph(t), finished, circled, rank);
    forall c | IsCycle(BeforeGraph(t), c) ensures exists x :: x in c && InList(circles + [waiting], x) {
      NoCycleUnnoticed(t, finished, circled, rank, circles, waiting, c);
    }
    hide FinishOrder;
    ReportOf(t, circles, circled, waiting);
  }

  lemma StuckIsCyclic(t: UnitTable, finished: set<UnitId>, waiting: seq<UnitId>)
    requires Closed(t) && Mirrored(t) && waiting != []
    requires finished <= t.Keys && forall x :: x in waiting <==> x in t && x !in finished
    requires forall u :: u in waiting ==> !NoUnfinishedPredecessor(t, finished, u)
    ensures !Acyclic(BeforeGraph(t))
  {
    hide IsCycle;
    assert waiting[0] in waiting && waiting[0] in t.Keys - finished;
    StuckUnitsContainCycle(t, finished, t.Keys - finished, waiting);
  }

  lemma ReportOf(t: UnitTable, circles: seq<seq<UnitId>>, circled: set<UnitId>, waiting: seq<UnitId>)
    requires Circles(BeforeGraph(t), circles, circled) && NoRepeat(waiting) && WaitForEachOther(t, waiting)
    requires forall x :: x in waiting ==> x !in circled
    requires forall c :: IsCycle(BeforeGraph(t), c) ==> exists x :: x in c && InList(circles + [waiting], x)
    ensures HonestReport(t, circles + [waiting])
  {
    assert forall i, x :: 0 <= i < |circles| && x in circles[i] ==> InList(circles, x) && x !in waiting;
    hide IsCycle;
    hide NoRepeat;
    hide WaitForEachOther;
    hide BeforeGraph;
  }

  lemma LeftWait(t: UnitTable, finished: set<UnitId>, waiting: seq<UnitId>)
    requires Closed(t) && waiting != [] && finished <= t.Keys && forall x :: x in waiting <==> x in t && x !in finished
    requires forall u :: u in waiting ==> !NoUnfinishedPredecessor(t, finished, u)
    ensures WaitForEachOther(t, waiting)
  {
    forall x | x in waiting ensures exists a :: a in t[x].deps.after && a in waiting {
      var a :| a in t[x].deps.after && a !in finished;
      assert Has(t, x, After, a);
    }
  }

  lemma NoCycleUnnoticed(t: UnitTable, finished: set<UnitId>, circled: set<UnitId>, rank: map<UnitId, nat>,
      circles: seq<seq<UnitId>>, waiting: seq<UnitId>, c: seq<UnitId>)
    requires Closed(t) && FinishOrder(BeforeGraph(t), finished, circled, rank) && IsCycle(BeforeGraph(t), c)
    requires Circles(BeforeGraph(t), circles, circled) && forall x :: x in waiting <==> x in t && x !in finished
    ensures exists x :: x in c && InList(circles + [waiting], x)
  {
    var g := BeforeGraph(t);
    InOneMore(circles, waiting);
    FinishedCyclesAreCircled(g, finished, circled, rank, c);
    hide InList;
    assert Edge(g, c[|c| - 1], c[0]);
    assert c[|c| - 1] in c && c[|c| - 1] in t;
  }

  lemma CircledFinished(g: Graph, finished: set<UnitId>, circled: set<UnitId>, rank: map<UnitId, nat>)
    requires FinishOrder(g, finished, circled, rank)
    ensures circled <= finished
  {
  }

  lemma FinishOrderIsRank(t: UnitTable, finished: set<UnitId>, circled: set<UnitId>, rank: map<UnitId, nat>)
    requires FinishOrder(BeforeGraph(t), finished, circled, rank) && finished == t.Keys
    requires Circles(BeforeGraph(t), [], circled)
    ensures RankedBy(BeforeGraph(t), rank) && Acyclic(BeforeGraph(t))
  {
    assert forall x :: x in circled ==> InList([], x);
    RankedIsAcyclic(BeforeGraph(t), rank);
  }
}
