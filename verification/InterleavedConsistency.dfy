/**
 * When overlapping calls keep requires-consistency. The calls are regular starts and stops, and the lock on the state of
 * a unit admits one of them at a time to each unit.
 */
module InterleavedConsistency {
  import opened Units
  import opened UnitStatus
  import opened SocketLinking
  import opened Loading
  import opened InterleavedSafety

  predicate IsRegular(c: Call) {
    || (c.ActivateCheck? && c.source == Regular)
    || c.ActivateGuard? || c.ActivateStart? || c.DeactivateCheck? || c.DeactivateGuard? || c.DeactivateStop? || c.Returned?
  }

  predicate OneCallEach(calls: seq<Call>) {
    forall i, j :: 0 <= i < j < |calls| && !calls[i].Returned? && !calls[j].Returned? ==> calls[i].u != calls[j].u
  }

  /** Only a regular start or stop arrives, and only when no other call holds its unit. */
  predicate Admitted(w: World, e: Event) {
    e.Arrive? ==> (
      && e.call.Fresh() && IsRegular(e.call)
      && forall i :: 0 <= i < |w.calls| && !w.calls[i].Returned? ==> w.calls[i].u != e.call.u)
  }

  ghost predicate IsLockedHistory(t: UnitTable, ws: seq<World>, events: seq<Event>) {
    IsHistory(t, ws, events) && forall k :: 0 <= k < |events| ==> Admitted(ws[k], events[k])
  }

  /** What the unit requires and comes after is started. */
  ghost predicate RequirementsStarted(t: UnitTable, st: StatusMap, u: UnitId) {
    u in t && forall a :: a in t[u].deps.requires_ && a in t[u].deps.after ==> a in st && st[a].Started?
  }

  /** A call that is about to change its unit has found it not started; a start under way has its requirements. */
  ghost predicate CallSound(t: UnitTable, st: StatusMap, c: Call) {
    && IsRegular(c) && CallIn(t, c)
    && (c.ActivateGuard? || c.ActivateStart? || c.DeactivateStop? ==> c.u in st && !st[c.u].Started?)
    && (c.ActivateStart? ==> RequirementsStarted(t, st, c.u))
  }

  ghost predicate Sound(t: UnitTable, w: World) {
    && Typed(t, w) && OneCallEach(w.calls) && RequiresConsistent(t, w.st)
    && forall i :: 0 <= i < |w.calls| ==> CallSound(t, w.st, w.calls[i])
  }

  ghost predicate StartUnderWay(t: UnitTable, calls: seq<Call>, i: int, u: UnitId) {
    && 0 <= i < |calls| && calls[i].ActivateStart? && calls[i].u in t
    && u in t[calls[i].u].deps.requires_ && u in t[calls[i].u].deps.after
  }

  /** A stop gets past its guard while a unit that requires and follows the stopped one is being started. */
  ghost predicate Clash(t: UnitTable, w: World, e: Event)
    requires Typed(t, w)
  {
    && e.Step? && e.i < |w.calls| && w.calls[e.i].DeactivateGuard?
    && CallStep(t, w.st, w.calls[e.i], e.start, e.stop).1.DeactivateStop?
    && exists j :: StartUnderWay(t, w.calls, j, w.calls[e.i].u)
  }

  // ---------- one step ----------

  /** What one step of a regular call does, if its unit is in the state that the call relies on. */
  lemma RegularStep(t: UnitTable, st: StatusMap, c: Call, start: StartOutcome, stop: StopOutcome)
    requires TableCovers(t, st) && Mirrored(t) && NoSelfOrder(t) && CallSound(t, st, c) && !c.Returned?
    ensures var r := CallStep(t, st, c, start, stop); var u := c.u;
      && u in st && r.0 == st[u := r.0[u]] && u in r.0 && u in t
      && CallIn(t, r.1) && IsRegular(r.1) && (r.1.Returned? || r.1.u == u)
      && (r.0[u] != st[u] && r.0[u].Started? ==> c.ActivateStart?)
      && (st[u].Started? && !r.0[u].Started? ==> c.DeactivateGuard? && r.1.DeactivateStop? && NoStartedDependent(t, st, u))
      && (r.1.ActivateGuard? || r.1.ActivateStart? || r.1.DeactivateStop? ==> !r.0[u].Started?)
      && (r.1.ActivateStart? ==> RequirementsStarted(t, st, u))
  {
    CoversDeps(t, st, c.u);
    if UnreadyDeps(t[c.u], st) == {} {
      AllDepsReady(t[c.u], st);
    }
    if UnkilledDependents(t[c.u], st) == {} {
      NoDependents(t, st, c.u);
    }
  }

  lemma StepKeepsConsistency(t: UnitTable, w: World, e: Event, w': World)
    requires Mirrored(t) && NoSelfOrder(t) && Sound(t, w) && Next(t, w, e, w')
    ensures RequiresConsistent(t, w'.st)
  {
    hide CallStep;
    hide RequiresConsistent;
    hide Mirrored;
    if e.Step? {
      var c := w.calls[e.i];
      RegularStep(t, w.st, c, e.start, e.stop);
      StartedUnitsStay(t, w.st, c.u, w'.st[c.u]);
    }
  }

  /** A call on another unit is only disturbed if its unit is being started and loses a requirement. */
  lemma OthersStaySound(t: UnitTable, st: StatusMap, u: UnitId, s: Status, c: Call)
    requires CallSound(t, st, c) && u in st && (c.Returned? || c.u != u)
    requires c.ActivateStart? && u in t[c.u].deps.requires_ && u in t[c.u].deps.after ==> s.Started? || !st[u].Started?
    ensures CallSound(t, st[u := s], c)
  {
  }

  lemma StepKeepsSound(t: UnitTable, w: World, e: Event, w': World)
    requires Mirrored(t) && NoSelfOrder(t) && Sound(t, w) && Admitted(w, e) && Next(t, w, e, w') && !Clash(t, w, e)
    ensures Sound(t, w')
  {
    StepKeepsConsistency(t, w, e, w');
    hide CallStep;
    hide RequiresConsistent;
    hide Mirrored;
    if e.Step? {
      var c := w.calls[e.i];
      RegularStep(t, w.st, c, e.start, e.stop);
      forall i | 0 <= i < |w.calls| && i != e.i ensures CallSound(t, w'.st, w.calls[i]) {
        assert !StartUnderWay(t, w.calls, i, c.u) || !w'.calls[e.i].DeactivateStop?;
        OthersStaySound(t, w.st, c.u, w'.st[c.u], w.calls[i]);
      }
      assert CallSound(t, w'.st, w'.calls[e.i]);
    }
  }

  /** After a clash the start need only succeed: then its unit is started and what it requires is not. */
  lemma ClashLoses(t: UnitTable, w: World, e: Event, w': World) returns (e': Event, w'': World)
    requires NoSelfOrder(t) && Typed(t, w) && Next(t, w, e, w') && Clash(t, w, e)
    ensures Admitted(w', e') && Next(t, w', e', w'') && !RequiresConsistent(t, w''.st)
  {
    var j :| StartUnderWay(t, w.calls, j, w.calls[e.i].u);
    var u, x := w.calls[e.i].u, w.calls[j].u;
    assert w'.calls[j] == w.calls[j] && CallIn(t, w.calls[j]);
    e' := Step(j, DidStart(Running), DidStop);
    var r := CallStep(t, w'.st, w'.calls[j], DidStart(Running), DidStop);
    w'' := World(r.0, w'.calls[j := r.1]);
    assert w''.st[x].Started? && !w''.st[u].Started?;
  }

  // ---------- whole histories ----------

  ghost predicate NoClash(t: UnitTable, ws: seq<World>, events: seq<Event>)
    requires IsHistory(t, ws, events)
  {
    forall k :: 0 <= k < |events| ==> Typed(t, ws[k]) && !Clash(t, ws[k], events[k])
  }

  lemma {:induction false} NoClashIsSound(t: UnitTable, ws: seq<World>, events: seq<Event>, k: nat)
    requires Mirrored(t) && NoSelfOrder(t) && IsLockedHistory(t, ws, events) && NoClash(t, ws, events) && k <= |events|
    ensures Sound(t, ws[k])
  {
    if k > 0 {
      NoClashIsSound(t, ws, events, k - 1);
      hide Sound;
      hide Next;
      hide Clash;
      hide Mirrored;
      assert Next(t, ws[k - 1], events[k - 1], ws[k]);
      StepKeepsSound(t, ws[k - 1], events[k - 1], ws[k]);
    }
  }

  /** However the history, at any of its moments, may go on for one more step, requires-consistency holds. */
  ghost predicate StaysConsistent(t: UnitTable, ws: seq<World>, events: seq<Event>)
    requires IsHistory(t, ws, events)
  {
    forall k, e, w' :: 0 <= k <= |events| && Admitted(ws[k], e) && Next(t, ws[k], e, w') ==> RequiresConsistent(t, w'.st)
  }

  /**
   * Overlapping regular starts and stops keep requires-consistency exactly as long as no stop gets past its guard while
   * a unit that requires the stopped one, and comes after it, is being started.
   */
  lemma ConsistentUnlessClash(t: UnitTable, ws: seq<World>, events: seq<Event>)
    requires Mirrored(t) && NoSelfOrder(t) && IsLockedHistory(t, ws, events)
    ensures NoClash(t, ws, events) <==> StaysConsistent(t, ws, events)
    ensures NoClash(t, ws, events) ==> forall k :: 0 <= k <= |events| ==> RequiresConsistent(t, ws[k].st)
  {
    hide Next;
    hide Clash;
    hide Mirrored;
    hide RequiresConsistent;
    if NoClash(t, ws, events) {
      forall k | 0 <= k <= |events| ensures Sound(t, ws[k]) && RequiresConsistent(t, ws[k].st) {
        NoClashIsSound(t, ws, events, k);
      }
      forall k, e, w' | 0 <= k <= |events| && Admitted(ws[k], e) && Next(t, ws[k], e, w') ensures RequiresConsistent(t, w'.st) {
        StepKeepsConsistency(t, ws[k], e, w');
      }
    } else {
      var k :| 0 <= k < |events| && !(Typed(t, ws[k]) && !Clash(t, ws[k], events[k]));
      HistoryIsFounded(t, ws, events, k);
      assert Next(t, ws[k], events[k], ws[k + 1]);
      var e', w'' := ClashLoses(t, ws[k], events[k], ws[k + 1]);
      var n := k + 1;
      assert Admitted(ws[n], e') && Next(t, ws[n], e', w'');
    }
  }

  // ---------- what overlapping calls do not keep ----------

  /** Two targets, of which `b` requires `a` and comes after it: as declared, and with the edges of the other side. */
  function PairDeclared(a: UnitId, b: UnitId): UnitTable {
    map[a := Unit(a, Dependencies([], [], [], [], [], []), [], TargetSpecific),
        b := Unit(b, Dependencies([], [], [a], [], [], [a]), [a, a], TargetSpecific)]
  }

  function Pair(a: UnitId, b: UnitId): UnitTable {
    map[a := Unit(a, Dependencies([], [], [], [b], [b], []), [], TargetSpecific),
        b := Unit(b, Dependencies([], [], [a], [], [], [a]), [a, a], TargetSpecific)]
  }

  lemma PairUnits(a: UnitId, b: UnitId)
    requires a != b && a.kind == Target && b.kind == Target
    ensures WellKeyed(PairDeclared(a, b)) && WellKeyed(Pair(a, b)) && SameUnits(PairDeclared(a, b), Pair(a, b))
    ensures forall u :: u in PairDeclared(a, b) ==> u.kind == Target && AsParsed(PairDeclared(a, b)[u])
  {
  }

  lemma PairEdges(a: UnitId, b: UnitId)
    requires a != b
    ensures forall u, r, v :: Has(PairDeclared(a, b), u, r, v) <==> u == b && v == a && (r == Requires || r == After)
    ensures forall u, r, v :: Has(Pair(a, b), u, r, v) <==>
      (u == b && v == a && (r == Requires || r == After)) || (u == a && v == b && (r == RequiredBy || r == Before))
    ensures a in Pair(a, b) && b in Pair(a, b)
  {
  }

  lemma PairIsFilled(a: UnitId, b: UnitId)
    requires a != b && a.kind == Target && b.kind == Target
    ensures forall u :: u in PairDeclared(a, b) ==> AsParsed(PairDeclared(a, b)[u])
    ensures Filled(PairDeclared(a, b), Pair(a, b))
    ensures Closed(Pair(a, b)) && Mirrored(Pair(a, b)) && WellKeyed(Pair(a, b))
  {
    hide AsParsed;
    hide Filled;
    hide SameUnits;
    PairUnits(a, b);
    PairEdges(a, b);
    hide WellKeyed;
    hide Has;
    TargetsFilled(PairDeclared(a, b), Pair(a, b));
  }

  /** A call that is alone at work on its unit, from its arrival: where it gets, step by step. */
  lemma PairSteps(a: UnitId, b: UnitId, st: StatusMap)
    requires a != b && a.kind == Target && b.kind == Target && TableCovers(Pair(a, b), st)
    ensures var t := Pair(a, b); var o := DidStart(Running); var q := DidStop;
      && (st[a] == NeverStarted ==> CallStep(t, st, ActivateCheck(a, Regular), o, q) == (st, ActivateGuard(a)))
      && CallStep(t, st, ActivateGuard(a), o, q) == (st[a := Starting], ActivateStart(a))
      && (st[a] == Starting ==> CallStep(t, st, ActivateStart(a), o, q) == (st[a := Started(Running)], Returned))
      && (st[b] == NeverStarted ==> CallStep(t, st, ActivateCheck(b, Regular), o, q) == (st, ActivateGuard(b)))
      && (st[a].Started? ==> CallStep(t, st, ActivateGuard(b), o, q) == (st[b := Starting], ActivateStart(b)))
      && (st[b] == Starting ==> CallStep(t, st, ActivateStart(b), o, q) == (st[b := Started(Running)], Returned))
      && (st[a].Started? ==> CallStep(t, st, DeactivateCheck(a), o, q) == (st, DeactivateGuard(a)))
      && (!st[b].Started? ==> CallStep(t, st, DeactivateGuard(a), o, q) == (st[a := Stopping], DeactivateStop(a)))
  {
    var t := Pair(a, b);
    CoversDeps(t, st, a);
    CoversDeps(t, st, b);
    assert UnreadyDeps(t[a], st) == {};
    if st[a].Started? {
      assert UnreadyDeps(t[b], st) == {};
    }
    if !st[b].Started? {
      assert UnkilledDependents(t[a], st) == {};
    }
  }

  ghost predicate Reachable(t: UnitTable, w: World) {
    exists ws, events :: IsLockedHistory(t, ws, events) && w == ws[|events|]
  }

  lemma ReachOn(t: UnitTable, w: World, e: Event, w': World)
    requires Reachable(t, w) && Admitted(w, e) && Next(t, w, e, w')
    ensures Reachable(t, w')
  {
    hide Next;
    hide Admitted;
    var ws, events :| IsLockedHistory(t, ws, events) && w == ws[|events|];
    var ws', events' := ws + [w'], events + [e];
    forall k | 0 <= k < |events'| ensures Next(t, ws'[k], events'[k], ws'[k + 1]) && Admitted(ws'[k], events'[k]) {
      if k < |events| {
        assert Next(t, ws[k], events[k], ws[k + 1]) && Admitted(ws[k], events[k]);
      }
    }
    assert IsLockedHistory(t, ws', events') && ws'[|events'|] == w';
  }

  /** A fresh call arrives behind the others and is the next one to step. */
  lemma ReachArrival(t: UnitTable, w: World, c: Call, c': Call)
    requires Reachable(t, w) && Typed(t, w) && Admitted(w, Arrive(c)) && CallIn(t, c) && CallIn(t, c')
    requires CallStep(t, w.st, c, DidStart(Running), DidStop) == (w.st, c')
    ensures Reachable(t, World(w.st, w.calls + [c'])) && Typed(t, World(w.st, w.calls + [c']))
  {
    hide CallStep;
    var w1 := World(w.st, w.calls + [c]);
    ReachOn(t, w, Arrive(c), w1);
    assert w1.calls[|w.calls| := c'] == w.calls + [c'];
    ReachOn(t, w1, Step(|w.calls|, DidStart(Running), DidStop), World(w.st, w.calls + [c']));
  }

  lemma ReachStep(t: UnitTable, w: World, i: nat, st': StatusMap, c': Call)
    requires Reachable(t, w) && Typed(t, w) && i < |w.calls| && !w.calls[i].Returned? && CallIn(t, c')
    requires CallStep(t, w.st, w.calls[i], DidStart(Running), DidStop) == (st', c') && st'.Keys == w.st.Keys
    ensures Reachable(t, World(st', w.calls[i := c'])) && Typed(t, World(st', w.calls[i := c']))
  {
    hide CallStep;
    ReachOn(t, w, Step(i, DidStart(Running), DidStop), World(st', w.calls[i := c']));
  }

  lemma ReachBegin(t: UnitTable, st: StatusMap)
    requires Closed(t) && WellKeyed(t) && st == map u | u in t :: NeverStarted
    ensures Reachable(t, World(st, [])) && Typed(t, World(st, []))
  {
    var events: seq<Event> := [];
    assert IsLockedHistory(t, [World(st, [])], events);
  }

  lemma FirstStarts(a: UnitId, b: UnitId) returns (w: World)
    requires a != b && a.kind == Target && b.kind == Target
    ensures Reachable(Pair(a, b), w) && Typed(Pair(a, b), w) && w.calls == [Returned]
    ensures w.st.Keys == {a, b} && w.st[a] == Started(Running) && w.st[b] == NeverStarted
  {
    hide Filled;
    hide AsParsed;
    hide Mirrored;
    hide WellKeyed;
    var t := Pair(a, b);
    var s0: StatusMap := map u | u in t :: NeverStarted;
    PairIsFilled(a, b);
    ReachBegin(t, s0);
    PairSteps(a, b, s0);
    assert t.Keys == {a, b};
    hide CallStep;
    hide Reachable;
    hide Closed;
    hide Pair;
    ReachArrival(t, World(s0, []), ActivateCheck(a, Regular), ActivateGuard(a));
    w := World(s0, [] + [ActivateGuard(a)]);
    ReachStep(t, w, 0, s0[a := Starting], ActivateStart(a));
    w := World(s0[a := Starting], w.calls[0 := ActivateStart(a)]);
    PairSteps(a, b, w.st);
    ReachStep(t, w, 0, w.st[a := Started(Running)], Returned);
    w := World(w.st[a := Started(Running)], w.calls[0 := Returned]);
  }

  /**
   * A unit may end up started while what it requires is being stopped: the stop guard looks for dependents that are
   * started, and here the dependent is still starting.
   */
  lemma RequiresConsistencyIsLost(a: UnitId, b: UnitId)
    requires a != b && a.kind == Target && b.kind == Target
    ensures (forall u :: u in PairDeclared(a, b) ==> AsParsed(PairDeclared(a, b)[u])) && Filled(PairDeclared(a, b), Pair(a, b))
    ensures exists w :: Reachable(Pair(a, b), w) && !RequiresConsistent(Pair(a, b), w.st)
  {
    hide Filled;
    hide AsParsed;
    var t := Pair(a, b);
    PairIsFilled(a, b);
    var w := FirstStarts(a, b);
    hide CallStep;
    hide Reachable;
    hide Closed;
    PairSteps(a, b, w.st);
    ReachArrival(t, w, ActivateCheck(b, Regular), ActivateGuard(b));
    w := World(w.st, w.calls + [ActivateGuard(b)]);
    ReachStep(t, w, 1, w.st[b := Starting], ActivateStart(b));
    w := World(w.st[b := Starting], w.calls[1 := ActivateStart(b)]);
    PairSteps(a, b, w.st);
    ReachArrival(t, w, DeactivateCheck(a), DeactivateGuard(a));
    w := World(w.st, w.calls + [DeactivateGuard(a)]);
    ReachStep(t, w, 2, w.st[a := Stopping], DeactivateStop(a));
    w := World(w.st[a := Stopping], w.calls[2 := DeactivateStop(a)]);
    PairSteps(a, b, w.st);
    ReachStep(t, w, 1, w.st[b := Started(Running)], Returned);
    w := World(w.st[b := Started(Running)], w.calls[1 := Returned]);
    assert a in t[b].deps.requires_ && a in t[b].deps.after;
    assert !RequiresConsistent(t, w.st);
  }
}
