/** Runs of whole operations, one after the other, and what restarts and wake-ups can do to requires-consistency. */
module WholeRuns {
  import opened Units
  import opened UnitStatus
  import opened DependencyResolving
  import opened SocketLinking
  import opened Loading

  /** Whole operations, with what the environment made of them. A wake-up is a start by socket activation. */
  datatype Op =
    | Activate(id: UnitId, start: StartOutcome)
    | WakeUp(id: UnitId, start: StartOutcome)
    | Deactivate(id: UnitId, stop: StopOutcome)
    | Reactivate(id: UnitId, stop: StopOutcome, start: StartOutcome)
    | ShutDown(id: UnitId)

  /** Shutdown chooses its unit; restarts and wake-ups are safe in the sense of their callers' conditions. */
  ghost predicate Allowed(t: UnitTable, st: StatusMap, op: Op)
    requires TableCovers(t, st)
  {
    && op.id in t
    && (CoversDeps(t, st, op.id);
        && (op.ShutDown? ==> NextToShutDown(t, st, op.id))
        && (op.WakeUp? ==> SafeStart(t, st, op.id, SocketActivation))
        && (op.Reactivate? ==> SafeRestart(t, st, op.id)))
  }

  ghost function Apply(t: UnitTable, st: StatusMap, op: Op): StatusMap
    requires TableCovers(t, st) && op.id in t
  {
    CoversDeps(t, st, op.id);
    match op
    case Activate(id, o) => st[id := ActivateStatus(t[id], st, Regular, o).0]
    case WakeUp(id, o) => st[id := ActivateStatus(t[id], st, SocketActivation, o).0]
    case Deactivate(id, o) => st[id := DeactivateStatus(t[id], st, o).0]
    case Reactivate(id, stop, o) => st[id := ReactivateStatus(t[id], st, stop, o).0]
    case ShutDown(id) => st[id := Stopped(StoppedFinal, [])]
  }

  /** `run` lists the status maps before and after each of the operations. */
  ghost predicate IsRun(t: UnitTable, run: seq<StatusMap>, ops: seq<Op>) {
    && |run| == |ops| + 1
    && (forall i :: 0 <= i <= |ops| ==> TableCovers(t, run[i]))
    && forall i :: 0 <= i < |ops| ==> Allowed(t, run[i], ops[i]) && run[i + 1] == Apply(t, run[i], ops[i])
  }

  lemma OpKeepsConsistency(t: UnitTable, st: StatusMap, op: Op)
    requires TableCovers(t, st) && Mirrored(t) && NoSelfOrder(t) && Allowed(t, st, op) && RequiresConsistent(t, st)
    ensures RequiresConsistent(t, Apply(t, st, op))
  {
    CoversDeps(t, st, op.id);
    match op
    case Activate(id, o) => ActivateKeepsConsistency(t, st, id, o);
    case WakeUp(id, o) => StartOutcomeMatters(t, st, id, SocketActivation, o);
    case Deactivate(id, o) => DeactivateKeepsConsistency(t, st, id, o);
    case Reactivate(id, stop, o) => RestartOutcome(t, st, id, stop, o);
    case ShutDown(id) => ShutdownKeepsConsistency(t, st, id);
  }

  /** Over every run of whole operations a started unit has its requirements started, at every moment. */
  lemma {:induction false} RunsKeepConsistency(t: UnitTable, run: seq<StatusMap>, ops: seq<Op>, i: nat)
    requires Mirrored(t) && NoSelfOrder(t) && IsRun(t, run, ops) && i <= |ops|
    requires forall u :: u in t ==> run[0][u] == NeverStarted
    ensures RequiresConsistent(t, run[i])
  {
    if i > 0 {
      RunsKeepConsistency(t, run, ops, i - 1);
      assert run[i - 1 + 1] == Apply(t, run[i - 1], ops[i - 1]);
      OpKeepsConsistency(t, run[i - 1], ops[i - 1]);
    } else {
      assert TableCovers(t, run[0]);
    }
  }

  // ---------- what an unsafe restart or wake-up does ----------

  /** A socket, a service that lists it, and another service that requires the first and comes after it, as declared. */
  function ChainDeclared(k: UnitId, a: UnitId, b: UnitId): UnitTable {
    map[k := Unit(k, Dependencies([], [], [], [], [], []), [], SocketSpecific([])),
        a := Unit(a, Dependencies([], [], [], [], [], []), [k], ServiceSpecific([k])),
        b := Unit(b, Dependencies([], [], [a], [], [], [a]), [a, a], ServiceSpecific([]))]
  }

  /** The same three as they are run. */
  function SocketChain(k: UnitId, a: UnitId, b: UnitId): UnitTable {
    map[k := Unit(k, Dependencies([], [], [], [a], [a], []), [], SocketSpecific([a])),
        a := Unit(a, Dependencies([], [], [k], [b], [b], [k]), [k], ServiceSpecific([k])),
        b := Unit(b, Dependencies([], [], [a], [], [], [a]), [a, a], ServiceSpecific([]))]
  }

  /** The second service does not belong to the socket by its name. */
  ghost predicate ChainIds(k: UnitId, a: UnitId, b: UnitId) {
    && k.kind == Socket && a.kind == Service && b.kind == Service && a != b
    && NameWithoutSuffix(b.name) != NameWithoutSuffix(k.name)
  }

  lemma DeclaredChainUnits(k: UnitId, a: UnitId, b: UnitId)
    requires ChainIds(k, a, b)
    ensures var t := ChainDeclared(k, a, b);
      WellKeyed(t) && (forall u, r, v :: !SocketTargetEdge(t, u, r, v)) && SameUnits(t, SocketChain(k, a, b))
  {
  }

  lemma DeclaredChainIsParsed(k: UnitId, a: UnitId, b: UnitId)
    requires ChainIds(k, a, b)
    ensures forall u :: u in ChainDeclared(k, a, b) ==> AsParsed(ChainDeclared(k, a, b)[u])
  {
  }

  lemma DeclaredChainEdges(k: UnitId, a: UnitId, b: UnitId)
    requires ChainIds(k, a, b)
    ensures var t := ChainDeclared(k, a, b);
      Closed(t) && forall u, r, v :: Has(t, u, r, v) <==> u == b && v == a && (r == After || r == Requires)
  {
  }

  lemma ChainLists(k: UnitId, a: UnitId, b: UnitId)
    requires ChainIds(k, a, b)
    ensures forall u, v :: ServiceLists(ChainDeclared(k, a, b), u, v) <==> u == a && v == k
    ensures forall u, v :: !SocketLists(ChainDeclared(k, a, b), u, v)
    ensures forall u, v :: ServiceLists(SocketChain(k, a, b), u, v) <==> u == a && v == k
    ensures forall u, v :: SocketLists(SocketChain(k, a, b), u, v) <==> u == k && v == a
  {
  }

  lemma ChainLinks(k: UnitId, a: UnitId, b: UnitId)
    requires ChainIds(k, a, b)
    ensures forall x, y :: Linked(ChainDeclared(k, a, b), x, y) <==> x == k && y == a
  {
    hide NameWithoutSuffix;
  }

  lemma RunChainEdges(k: UnitId, a: UnitId, b: UnitId)
    requires ChainIds(k, a, b)
    ensures forall u, r, v :: Has(SocketChain(k, a, b), u, r, v) <==>
      || ((r == After || r == Requires) && ((u == a && v == k) || (u == b && v == a)))
      || ((r == Before || r == RequiredBy) && ((u == k && v == a) || (u == a && v == b)))
  {
  }

  /** What the proofs about the running chain need of it. */
  lemma RunChainDeps(k: UnitId, a: UnitId, b: UnitId)
    requires ChainIds(k, a, b)
    ensures var t := SocketChain(k, a, b);
      && t.Keys == {k, a, b} && NoSelfOrder(t)
      && t[k].deps.after == [] && t[a].deps.after == [k] && t[b].deps.after == [a] && t[b].deps.requires_ == [a]
  {
  }

  lemma SocketChainIsFilled(k: UnitId, a: UnitId, b: UnitId)
    requires ChainIds(k, a, b)
    ensures forall u :: u in ChainDeclared(k, a, b) ==> AsParsed(ChainDeclared(k, a, b)[u])
    ensures Filled(ChainDeclared(k, a, b), SocketChain(k, a, b))
    ensures WellFormed(SocketChain(k, a, b)) && NoSelfOrder(SocketChain(k, a, b))
  {
    hide Has;
    hide ServiceLists;
    hide SocketLists;
    hide SocketTargetEdge;
    hide Linked;
    hide SameUnits;
    hide ChainDeclared;
    hide SocketChain;
    hide AsParsed;
    hide WellFormed;
    hide WellKeyed;
    hide Closed;
    hide NoSelfOrder;
    DeclaredChainUnits(k, a, b);
    DeclaredChainIsParsed(k, a, b);
    DeclaredChainEdges(k, a, b);
    ChainLists(k, a, b);
    ChainLinks(k, a, b);
    RunChainEdges(k, a, b);
    RunChainDeps(k, a, b);
    FilledIsWellFormed(ChainDeclared(k, a, b), SocketChain(k, a, b));
  }

  /** A unit that has not been started and whose predecessors are started takes the outcome of its start. */
  lemma FirstStart(t: UnitTable, st: StatusMap, id: UnitId, how: StatusStarted)
    requires TableCovers(t, st) && id in t && st[id] == NeverStarted
    requires forall a :: a in t[id].deps.after ==> a in st && st[a].Started?
    ensures Allowed(t, st, Activate(id, DidStart(how)))
    ensures Apply(t, st, Activate(id, DidStart(how))) == st[id := Started(how)]
    ensures TableCovers(t, st[id := Started(how)])
  {
    CoversDeps(t, st, id);
    assert UnreadyDeps(t[id], st) == {};
  }

  function AllThree(k: UnitId, a: UnitId, b: UnitId): StatusMap {
    map[k := Started(Running), a := Started(WaitingForSocket), b := Started(Running)]
  }

  lemma ChainStarts(k: UnitId, a: UnitId, b: UnitId) returns (run: seq<StatusMap>, ops: seq<Op>)
    requires ChainIds(k, a, b)
    ensures IsRun(SocketChain(k, a, b), run, ops) && forall u :: u in SocketChain(k, a, b) ==> run[0][u] == NeverStarted
    ensures |ops| == 3 && run[3] == AllThree(k, a, b)
  {
    hide SocketChain;
    hide Filled;
    hide AsParsed;
    hide Closed;
    hide WellKeyed;
    hide Mirrored;
    hide SocketsMirrored;
    var t := SocketChain(k, a, b);
    SocketChainIsFilled(k, a, b);
    RunChainDeps(k, a, b);
    hide NoSelfOrder;
    var st0: StatusMap := map[k := NeverStarted, a := NeverStarted, b := NeverStarted];
    var st1 := st0[k := Started(Running)];
    var st2 := st1[a := Started(WaitingForSocket)];
    assert TableCovers(t, st0);
    hide Allowed;
    hide Apply;
    hide TableCovers;
    FirstStart(t, st0, k, Running);
    FirstStart(t, st1, a, WaitingForSocket);
    FirstStart(t, st2, b, Running);
    run := [st0, st1, st2, st2[b := Started(Running)]];
    ops := [Activate(k, DidStart(Running)), Activate(a, DidStart(WaitingForSocket)), Activate(b, DidStart(Running))];
    assert run[3] == AllThree(k, a, b);
  }

  ghost predicate LosesWith(t: UnitTable, st: StatusMap, op: Op) {
    TableCovers(t, st) && op.id in t && RequiresConsistent(t, st) && !RequiresConsistent(t, Apply(t, st, op))
  }

  /** With a unit that a started one relies on and whose own predecessors are started, a failing start is a loss. */
  lemma FailingStartLoses(t: UnitTable, st: StatusMap, id: UnitId, u: UnitId, e: Reason)
    requires TableCovers(t, st) && NoSelfOrder(t) && RequiresConsistent(t, st) && id in t && st[id] == Started(WaitingForSocket)
    requires forall a :: a in t[id].deps.after ==> a in st && st[a].Started?
    requires u in t && u in st && st[u].Started? && id in t[u].deps.requires_ && id in t[u].deps.after
    ensures LosesWith(t, st, Reactivate(id, DidStop, StartFailure(e)))
    ensures LosesWith(t, st, WakeUp(id, StartFailure(e)))
  {
    CoversDeps(t, st, id);
    assert UnreadyDeps(t[id], st) == {};
    RestartOutcome(t, st, id, DidStop, StartFailure(e));
    StartOutcomeMatters(t, st, id, SocketActivation, StartFailure(e));
    hide RequiresConsistent;
    hide Closed;
    hide WellKeyed;
  }

  /**
   * Once the three are started, the one in the middle waiting for its socket, a restart of it and a wake-up, if its
   * start fails, leave the last one started without what it requires.
   */
  lemma FailingRestartLoses(k: UnitId, a: UnitId, b: UnitId, e: Reason)
    requires ChainIds(k, a, b)
    ensures forall u :: u in ChainDeclared(k, a, b) ==> AsParsed(ChainDeclared(k, a, b)[u])
    ensures Filled(ChainDeclared(k, a, b), SocketChain(k, a, b)) && WellFormed(SocketChain(k, a, b))
    ensures exists run, ops :: (
      && IsRun(SocketChain(k, a, b), run, ops) && (forall u :: u in SocketChain(k, a, b) ==> run[0][u] == NeverStarted)
      && LosesWith(SocketChain(k, a, b), run[|ops|], Reactivate(a, DidStop, StartFailure(e)))
      && LosesWith(SocketChain(k, a, b), run[|ops|], WakeUp(a, StartFailure(e))))
  {
    hide SocketChain;
    hide ChainDeclared;
    hide Filled;
    hide AsParsed;
    hide Closed;
    hide WellKeyed;
    hide SocketsMirrored;
    hide Mirrored;
    hide Allowed;
    hide Apply;
    hide RequiresConsistent;
    hide LosesWith;
    var t := SocketChain(k, a, b);
    var run, ops := ChainStarts(k, a, b);
    SocketChainIsFilled(k, a, b);
    RunChainDeps(k, a, b);
    hide NoSelfOrder;
    var st := run[|ops|];
    assert TableCovers(t, st);
    RunsKeepConsistency(t, run, ops, |ops|);
    FailingStartLoses(t, st, a, b, e);
  }
}
