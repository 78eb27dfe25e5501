/** From declared units to started units: loading, the sanity check, the needed ids and the parallel start together. */
module Boot {
  import opened Wrappers

  import opened Units
  import opened Digraph
  import opened IdVectors
  import opened UnitStatus
  import opened StartupPool
  import opened StartSubgraph
  import opened SocketLinking
  import opened SanityCheck
  import opened Pruning
  import opened Loading
  import opened StartupRuns

  /**
   * Finding startable units over a table on which nothing changes meanwhile. Reported are the predecessors that were
   * never tried and, of those that are required, the ones that are not started.
   */
  method UnstartedDeps(id: UnitId, t: UnitTable, st: StatusMap) returns (unready: seq<UnitId>)
    requires Closed(t) && st.Keys == t.Keys
    ensures id !in t ==> unready == []
    ensures id in t ==> forall a :: a in unready <==>
      a in st && a in t[id].deps.after && (st[a] == NeverStarted || (a in t[id].deps.requires_ && !st[a].Started?))
  {
    unready := [];
    if id in t {
      AfterInTable(t, id);
      var after := t[id].deps.after;
      for i := 0 to |after|
        invariant forall a :: a in unready <==>
          a in st && a in after[..i] && (st[a] == NeverStarted || (a in t[id].deps.requires_ && !st[a].Started?))
      {
        if !DepReady(t[id], after[i], st) {
          unready := unready + [after[i]];
        }
      }
      assert after[..|after|] == after;
    }
  }

  ghost function ReadyUnits(t: UnitTable, st: StatusMap): set<UnitId>
    requires Closed(t) && st.Keys == t.Keys
  {
    set u | u in t && (AfterInTable(t, u); Ready(t, st, u))
  }

  /** A unit is ready if everything it comes after has been tried, and what of that it requires is started. */
  lemma ReadyUnitsAre(t: UnitTable, st: StatusMap)
    requires Closed(t) && st.Keys == t.Keys
    ensures forall u :: u in ReadyUnits(t, st) <==> u in t && forall a :: a in t[u].deps.after ==>
      a in st && st[a] != NeverStarted && (a in t[u].deps.requires_ ==> st[a].Started?)
  {
    forall u | u in t ensures IdsIn(t, t[u].deps.after) {
      AfterInTable(t, u);
    }
  }

  function TakeIf(found: seq<UnitId>, take: bool, u: UnitId): seq<UnitId> {
    if take then found + [u] else found
  }

  lemma FilterFirst(found: seq<UnitId>, ids: seq<UnitId>, keep: set<UnitId>)
    requires ids != []
    ensures TakeIf(found, ids[0] in keep, ids[0]) + Filter(ids[1..], keep) == found + Filter(ids, keep)
  {
    assert found + [ids[0]] + Filter(ids[1..], keep) == found + ([ids[0]] + Filter(ids[1..], keep));
  }

  /** The units of the list that could be started now, in their order. */
  method FindStartableUnits(ids: seq<UnitId>, t: UnitTable, st: StatusMap) returns (startable: seq<UnitId>)
    requires Closed(t) && st.Keys == t.Keys && IdsIn(t, ids)
    ensures startable == Filter(ids, ReadyUnits(t, st))
    ensures forall u :: u in startable <==> u in ids && forall a :: a in t[u].deps.after ==>
      a in st && st[a] != NeverStarted && (a in t[u].deps.requires_ ==> st[a].Started?)
  {
    ReadyUnitsAre(t, st);
    hide ReadyUnits;
    hide Closed;
    hide Filter;
    startable := [];
    for i := 0 to |ids|
      invariant startable + Filter(ids[i..], ReadyUnits(t, st)) == Filter(ids, ReadyUnits(t, st))
    {
      var unready := UnstartedDeps(ids[i], t, st);
      IsReady(t, st, ids[i], unready);
      FilterFirst(startable, ids[i..], ReadyUnits(t, st));
      assert ids[i..][1..] == ids[i + 1..];
      if unready == [] {
        startable := startable + [ids[i]];
      }
    }
    FilterNone(ReadyUnits(t, st));
    assert ids[|ids|..] == [];
  }

  lemma FilterNone(keep: set<UnitId>)
    ensures Filter([], keep) == []
  {
  }

  lemma IsReady(t: UnitTable, st: StatusMap, u: UnitId, unready: seq<UnitId>)
    requires Closed(t) && st.Keys == t.Keys && u in t
    requires forall a :: a in unready <==>
      a in st && a in t[u].deps.after && (st[a] == NeverStarted || (a in t[u].deps.requires_ && !st[a].Started?))
    ensures unready == [] <==> u in ReadyUnits(t, st)
  {
    AfterInTable(t, u);
    if unready != [] {
      assert unready[0] in unready;
    }
  }

  /** `n` undisturbed steps of a scan lead from `a` to `b`. */
  ghost predicate ScansTo(t: UnitTable, needed: set<UnitId>, st: StatusMap, a: Act, n: nat, b: Act)
    requires st.Keys == t.Keys
    decreases n
  {
    if n == 0 then a == b
    else a.Scan? && ActIn(t, a) && ScansTo(t, needed, st, ScanStep(t, needed, st, a), n - 1, b)
  }

  lemma {:induction false} ScansOn(t: UnitTable, needed: set<UnitId>, st: StatusMap, a: Act, n: nat, b: Act, m: nat, c: Act)
    requires st.Keys == t.Keys && ScansTo(t, needed, st, a, n, b) && ScansTo(t, needed, st, b, m, c)
    ensures ScansTo(t, needed, st, a, n + m, c)
    decreases n
  {
    if n > 0 {
      ScansOn(t, needed, st, ScanStep(t, needed, st, a), n - 1, b, m, c);
    }
  }

  predicate AllLeftReady(t: UnitTable, st: StatusMap, c: Cursor)
    requires c.u in t && IdsIn(t, c.left) && st.Keys == t.Keys
  {
    c.ready && forall a :: a in c.left ==> DepReady(t[c.u], a, st)
  }

  function AfterCursor(t: UnitTable, st: StatusMap, a: Act): Act
    requires st.Keys == t.Keys && a.Scan? && a.cur.Some? && ActIn(t, a)
  {
    a.(cur := None, found := TakeIf(a.found, AllLeftReady(t, st, a.cur.value), a.cur.value.u))
  }

  lemma {:induction false} CursorScans(t: UnitTable, needed: set<UnitId>, st: StatusMap, a: Act)
    requires st.Keys == t.Keys && a.Scan? && a.cur.Some? && ActIn(t, a)
    ensures ScansTo(t, needed, st, a, |a.cur.value.left| + 1, AfterCursor(t, st, a))
    decreases |a.cur.value.left|
  {
    var c := a.cur.value;
    hide DepReady;
    if c.left == [] {
      assert AllLeftReady(t, st, c) == c.ready;
      assert ScansTo(t, needed, st, ScanStep(t, needed, st, a), 0, ScanStep(t, needed, st, a));
    } else {
      var a' := ScanStep(t, needed, st, a);
      assert c.left == [c.left[0]] + c.left[1..];
      assert AllLeftReady(t, st, c) == AllLeftReady(t, st, a'.cur.value);
      CursorScans(t, needed, st, a');
    }
  }

  /** Looking at one unit: the cursor is put on it, run over its predecessors, and taken off again. */
  lemma OneUnitScans(t: UnitTable, needed: set<UnitId>, st: StatusMap, a: Act)
    requires Closed(t) && st.Keys == t.Keys && a.Scan? && a.cur.None? && ActIn(t, a) && a.todo != []
    ensures var u := a.todo[0];
      ScansTo(t, needed, st, a, |t[u].deps.after| + 2, a.(todo := a.todo[1..], found := TakeIf(a.found, u in ReadyUnits(t, st), u)))
  {
    hide DepReady;
    AfterInTable(t, a.todo[0]);
    CursorScans(t, needed, st, ScanStep(t, needed, st, a));
  }

  /** A scan that nothing disturbs finds what FindStartableUnits finds. */
  lemma {:induction false} ScanAloneFinds(t: UnitTable, needed: set<UnitId>, st: StatusMap, a: Act) returns (n: nat)
    requires Closed(t) && st.Keys == t.Keys && a.Scan? && a.cur.None? && ActIn(t, a)
    ensures ScansTo(t, needed, st, a, n, a.(todo := [], found := a.found + Filter(a.todo, ReadyUnits(t, st))))
    decreases |a.todo|
  {
    hide ReadyUnits;
    hide Closed;
    if a.todo == [] {
      assert a.found + Filter(a.todo, ReadyUnits(t, st)) == a.found;
      n := 0;
    } else {
      hide ScansTo;
      hide Filter;
      var u := a.todo[0];
      var a' := a.(todo := a.todo[1..], found := TakeIf(a.found, u in ReadyUnits(t, st), u));
      OneUnitScans(t, needed, st, a);
      FilterFirst(a.found, a.todo, ReadyUnits(t, st));
      n := ScanAloneFinds(t, needed, st, a');
      ScansOn(t, needed, st, a, |t[u].deps.after| + 2, a', n, a'.(todo := [], found := a'.found + Filter(a'.todo, ReadyUnits(t, st))));
      n := |t[u].deps.after| + 2 + n;
    }
  }

  lemma NeededIsStartable(t: UnitTable, target: UnitId, ids: seq<UnitId>)
    requires WellFormed(t) && target in t
    requires forall x :: x in ids <==> NeededBy(t, [target], x)
    requires forall x :: x in ids ==> x in t
    ensures Startable(t, Elements(ids)) && target in ids
  {
    ReachesSelf(NeedsGraph(t), target);
    assert target in [target];
    NeedsEdges(t);
    forall u, a | u in ids && a in t[u].deps.after ensures a in ids {
      assert Edge(NeedsGraph(t), u, a);
      assert NeededBy(t, [target], u);
      ReachesAppend(NeedsGraph(t), target, u, a);
    }
  }

  /** Some service that lists the socket, and is listed by it, is needed to start the socket. */
  ghost predicate NeedsItsService(filled: UnitTable, sock: UnitId) {
    exists srvc :: SocketLists(filled, sock, srvc) && srvc in filled && Reaches(NeedsGraph(filled), sock, srvc)
  }

  /** Loading keeps its target unless that is a socket; of a socket it drops the services that the target does not need. */
  lemma TargetIsKept(t: UnitTable, filled: UnitTable, target: UnitId)
    requires WellKeyed(t) && Closed(t) && Filled(t, filled) && target in t
    ensures Kept(filled, target, target) <==> target.kind != Socket || NeedsItsService(filled, target)
  {
    FillingEstablishesShape(t, filled);
    ReachesSelf(NeedsGraph(filled), target);
    if target.kind == Socket {
      var services := filled[target].specific.services;
      var kept := Filter(services, NeededIds(filled, target));
      if kept != [] {
        assert kept[0] in kept;
        assert SocketLists(filled, target, kept[0]);
      }
      if NeedsItsService(filled, target) {
        var srvc :| SocketLists(filled, target, srvc) && srvc in filled && Reaches(NeedsGraph(filled), target, srvc);
        assert srvc in kept;
      }
    }
  }

  /** Edges, lists and names of the loaded units are those of the declared ones, as far as filling and pruning go. */
  ghost predicate LoadedFrom(t: UnitTable, needed: set<UnitId>, loaded: UnitTable) {
    && (forall u, r, v :: Has(loaded, u, r, v) <==> (FilledEdge(t, u, r, v) && u in loaded && v in loaded))
    && (forall srvc, sock :: ServiceLists(loaded, srvc, sock) <==>
         ((ServiceLists(t, srvc, sock) || Linked(t, sock, srvc)) && srvc in loaded && sock in loaded))
    && (forall srvc, sock :: SocketLists(loaded, sock, srvc) <==>
         ((SocketLists(t, sock, srvc) || Linked(t, sock, srvc)) && sock in loaded && srvc in needed))
    && (forall u :: u in loaded ==> u in t && loaded[u].refsByName == t[u].refsByName)
  }

  /** `TargetPruned`: the target is itself a socket that loading has dropped; the original then panics. */
  datatype Preparation = Rejected | TargetPruned | Prepared(ids: seq<UnitId>)

  lemma OneIsNoRepeat(id: UnitId)
    ensures NoRepeat([id])
  {
  }

  /** The way from the declared units to a started target. */
  method PrepareStart(t: UnitTable, target: UnitId) returns (r: Preparation, loaded: UnitTable, ghost filled: UnitTable)
    requires WellKeyed(t) && NamesUnique(t.Keys) && Closed(t) && target in t
    ensures OneServiceEach(t) ==> Filled(t, filled) && forall id :: id in loaded <==> Kept(filled, target, id)
    ensures OneServiceEach(t) ==> LoadedFrom(t, NeededIds(filled, target), loaded)
    ensures r.Rejected? <==> !(OneServiceEach(t) && Acyclic(BeforeGraph(loaded)))
    ensures r.TargetPruned? ==> target.kind == Socket && !NeedsItsService(filled, target)
    ensures r.Prepared? ==> target.kind != Socket || NeedsItsService(filled, target)
    ensures r.Prepared? ==> NoRepeat(r.ids) && forall x :: x in r.ids <==> NeededBy(loaded, [target], x)
    ensures r.Prepared? ==> target in r.ids && Startable(loaded, Elements(r.ids)) && Acyclic(BeforeGraph(loaded))
    ensures r.Prepared? ==> EveryRunCompletes(loaded, r.ids)
  {
    hide OneServiceEach;
    hide Acyclic;
    hide Kept;
    hide NeededIds;
    hide NeededBy;
    hide NoRepeat;
    hide Deduped;
    hide EveryRunCompletes;
    hide Filled;
    hide NeedsItsService;
    var ok;
    ok, loaded, filled := LoadAllUnits(t, target);
    if !ok {
      return Rejected, loaded, filled;
    }
    TargetIsKept(t, filled, target);
    var verdict, _ := SanityCheckDependencies(loaded);
    if !verdict.Ok? {
      return Rejected, loaded, filled;
    }
    if target !in loaded {
      return TargetPruned, loaded, filled;
    }
    OneIsNoRepeat(target);
    var ids := CollectUnitStartSubgraph([target], loaded);
    NeededIsStartable(loaded, target, ids);
    AllRunsComplete(loaded, ids);
    return Prepared(ids), loaded, filled;
  }
}
