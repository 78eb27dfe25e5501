/**
 * Activate, deactivate, reactivate and shutdown running at the same time, cut at every access to a status. The guard of
 * each transition is one step. Nothing below relies on the lock on a unit's state, so any two calls may overlap.
 */
module InterleavedSafety {
  import opened Units
  import opened UnitStatus

  datatype Call =
    | ActivateCheck(u: UnitId, source: Source)
    | ActivateGuard(u: UnitId)
    | ActivateStart(u: UnitId)
    | DeactivateCheck(u: UnitId)
    | DeactivateGuard(u: UnitId)
    | DeactivateStop(u: UnitId)
    | ReactivateGuard(u: UnitId)
    | ReactivateStop(u: UnitId)
    | ReactivateStart(u: UnitId)
    | ShutdownPick(u: UnitId)
    | ShutdownMark(u: UnitId)
    | ShutdownStop(u: UnitId)
    | Returned
  {
    predicate Fresh() {
      ActivateCheck? || DeactivateCheck? || ReactivateGuard? || ShutdownPick?
    }

    /** Past a start guard and not yet back. */
    predicate Starts(id: UnitId) {
      (ActivateStart? || ReactivateStop? || ReactivateStart?) && u == id
    }
  }

  datatype World = World(st: StatusMap, calls: seq<Call>)

  /** A new call arrives, or call `i` takes its next step; the outcomes are used if the step starts or stops a unit. */
  datatype Event = Arrive(call: Call) | Step(i: nat, start: StartOutcome, stop: StopOutcome)

  ghost predicate CallIn(t: UnitTable, c: Call) {
    !c.Returned? ==> c.u in t
  }

  ghost predicate Typed(t: UnitTable, w: World) {
    TableCovers(t, w.st) && forall i :: 0 <= i < |w.calls| ==> CallIn(t, w.calls[i])
  }

  /** One step of a call: the statuses and where the call has got to. */
  function CallStep(t: UnitTable, st: StatusMap, c: Call, start: StartOutcome, stop: StopOutcome): (StatusMap, Call)
    requires TableCovers(t, st) && CallIn(t, c) && !c.Returned?
  {
    CoversDeps(t, st, c.u);
    match c
    case ActivateCheck(u, source) => (st, if NeedsActivation(st[u], source) then ActivateGuard(u) else Returned)
    case ActivateGuard(u) =>
      if UnreadyDeps(t[u], st) != {} then (st, Returned) else (st[u := Starting], ActivateStart(u))
    case ActivateStart(u) =>
      if t[u].specific.TargetSpecific? then (st[u := if st[u].Started? then st[u] else Started(Running)], Returned)
      else (st[u := AfterStart(start).0], Returned)
    case DeactivateCheck(u) => (st, if st[u].Stopped? then Returned else DeactivateGuard(u))
    case DeactivateGuard(u) =>
      if UnkilledDependents(t[u], st) != {} then (st, Returned) else (st[u := Stopping], DeactivateStop(u))
    case DeactivateStop(u) => (st[u := AfterStop(if t[u].specific.TargetSpecific? then DidStop else stop).0], Returned)
    case ReactivateGuard(u) =>
      if UnreadyDeps(t[u], st) != {} then (st, Returned)
      else (st[u := Restarting], if st[u].Started? && !t[u].specific.TargetSpecific? then ReactivateStop(u) else ReactivateStart(u))
    case ReactivateStop(u) => if stop.StopFailure? then (st[u := AfterStop(stop).0], Returned) else (st, ReactivateStart(u))
    case ReactivateStart(u) =>
      (st[u := if t[u].specific.TargetSpecific? then Started(Running) else AfterStart(start).0], Returned)
    case ShutdownPick(u) => (st, if st[u].Started? then ShutdownMark(u) else Returned)
    case ShutdownMark(u) => (st[u := Stopping], ShutdownStop(u))
    case ShutdownStop(u) => (st[u := Stopped(StoppedFinal, [])], Returned)
  }

  ghost predicate Next(t: UnitTable, w: World, e: Event, w': World) {
    && Typed(t, w)
    && match e
      case Arrive(c) => c.Fresh() && CallIn(t, c) && w' == World(w.st, w.calls + [c])
      case Step(i, start, stop) =>
        && i < |w.calls| && !w.calls[i].Returned?
        && var r := CallStep(t, w.st, w.calls[i], start, stop);
           w' == World(r.0, w.calls[i := r.1])
  }

  /** From units that were never started, with no call under way. */
  ghost predicate IsHistory(t: UnitTable, ws: seq<World>, events: seq<Event>) {
    && Closed(t) && WellKeyed(t)
    && |ws| == |events| + 1
    && ws[0] == World(map u | u in t :: NeverStarted, [])
    && forall k :: 0 <= k < |events| ==> Next(t, ws[k], events[k], ws[k + 1])
  }

  // ---------- one step ----------

  predicate Tried(st: StatusMap, x: UnitId) {
    x in st && st[x] != NeverStarted
  }

  predicate Active(s: Status) {
    s == Starting || s == Restarting || s.Started?
  }

  /** A unit that was tried once stays tried, and no unit appears or disappears. */
  ghost predicate StaysTried(st: StatusMap, st': StatusMap) {
    st'.Keys == st.Keys && forall x :: Tried(st, x) ==> Tried(st', x)
  }

  /** Every predecessor has been tried, and every required one is started. */
  ghost predicate DepsReady(t: UnitTable, st: StatusMap, u: UnitId) {
    u in t && forall a :: a in t[u].deps.after ==> Tried(st, a) && (a in t[u].deps.requires_ ==> st[a].Started?)
  }

  /**
   * A step changes nothing but the status of its unit, never back to NeverStarted. The unit can become active only in a
   * call that has passed a start guard, and a call gets past a start guard only when its predecessors are ready. Whoever
   * passes a guard marks the unit with what is being done to it.
   */
  lemma CallStepEffect(t: UnitTable, st: StatusMap, c: Call, start: StartOutcome, stop: StopOutcome)
    requires TableCovers(t, st) && CallIn(t, c) && !c.Returned?
    ensures var r := CallStep(t, st, c, start, stop);
      && StaysTried(st, r.0)
      && CallIn(t, r.1)
      && (forall x :: x in st && x != c.u ==> r.0[x] == st[x])
      && (Active(r.0[c.u]) && !Active(st[c.u]) ==> c.Starts(c.u) || DepsReady(t, st, c.u))
      && (forall u :: r.1.Starts(u) ==> c.Starts(u) || (u == c.u && DepsReady(t, st, u)))
      && (r.0[c.u] == Starting && st[c.u] != Starting <==> c.ActivateGuard? && r.1.ActivateStart? && st[c.u] != Starting)
      && (r.1.DeactivateStop? || r.1.ShutdownStop? ==> r.0[c.u] == Stopping)
      && (c.ReactivateGuard? && !r.1.Returned? ==> r.0[c.u] == Restarting)
  {
    hide Closed;
    hide WellKeyed;
    hide UnkilledDependents;
    hide NeedsActivation;
    CoversDeps(t, st, c.u);
    if UnreadyDeps(t[c.u], st) == {} {
      AllDepsReady(t[c.u], st);
      assert DepsReady(t, st, c.u);
    }
  }

  // ---------- a call on its own ----------

  /** Up to `n` steps of a call that nothing comes between. */
  function Alone(t: UnitTable, st: StatusMap, c: Call, start: StartOutcome, stop: StopOutcome, n: nat): (StatusMap, Call)
    requires TableCovers(t, st) && CallIn(t, c)
    decreases n
  {
    if n == 0 || c.Returned? then (st, c)
    else
      CallStepEffect(t, st, c, start, stop);
      var r := CallStep(t, st, c, start, stop);
      Alone(t, r.0, r.1, start, stop, n - 1)
  }

  function StartOf(u: Unit, start: StartOutcome): StartOutcome {
    if u.specific.TargetSpecific? then DidStart(Running) else start
  }

  function StopOf(u: Unit, stop: StopOutcome): StopOutcome {
    if u.specific.TargetSpecific? then DidStop else stop
  }

  lemma AloneGoesOn(t: UnitTable, st: StatusMap, c: Call, start: StartOutcome, stop: StopOutcome, n: nat)
    requires TableCovers(t, st) && CallIn(t, c) && n > 0
    ensures c.Returned? ==> Alone(t, st, c, start, stop, n) == (st, c)
    ensures !c.Returned? ==> (
      var r := CallStep(t, st, c, start, stop);
      TableCovers(t, r.0) && CallIn(t, r.1) && Alone(t, st, c, start, stop, n) == Alone(t, r.0, r.1, start, stop, n - 1))
  {
    if !c.Returned? {
      CallStepEffect(t, st, c, start, stop);
    }
  }

  /** Three steps at most, then the call has returned. */
  lemma AloneInThree(t: UnitTable, st: StatusMap, c: Call, start: StartOutcome, stop: StopOutcome) returns (r: (StatusMap, Call))
    requires TableCovers(t, st) && CallIn(t, c) && c.Fresh()
    ensures r == Alone(t, st, c, start, stop, 3)
    ensures var r1 := CallStep(t, st, c, start, stop);
      && TableCovers(t, r1.0) && CallIn(t, r1.1)
      && (r1.1.Returned? ==> r == r1)
      && (!r1.1.Returned? ==> (
        var r2 := CallStep(t, r1.0, r1.1, start, stop);
        && TableCovers(t, r2.0) && CallIn(t, r2.1)
        && (r2.1.Returned? ==> r == r2)
        && (!r2.1.Returned? ==> r == CallStep(t, r2.0, r2.1, start, stop))))
  {
    hide CallStep;
    r := Alone(t, st, c, start, stop, 3);
    AloneGoesOn(t, st, c, start, stop, 3);
    var r1 := CallStep(t, st, c, start, stop);
    AloneGoesOn(t, r1.0, r1.1, start, stop, 2);
    if !r1.1.Returned? {
      var r2 := CallStep(t, r1.0, r1.1, start, stop);
      AloneGoesOn(t, r2.0, r2.1, start, stop, 1);
    }
  }

  lemma Overwrite(st: StatusMap, u: UnitId, s: Status, s': Status)
    requires u in st
    ensures st[u := st[u]] == st && st[u := s][u := s'] == st[u := s']
  {
  }

  /** The last step of a start, and of a stop. */
  lemma LastStep(t: UnitTable, st: StatusMap, u: UnitId, s: Status, start: StartOutcome, stop: StopOutcome)
    requires TableCovers(t, st) && TableCovers(t, st[u := s]) && u in t && !s.Started?
    ensures CallStep(t, st[u := s], ActivateStart(u), start, stop) == (st[u := AfterStart(StartOf(t[u], start)).0], Returned)
    ensures CallStep(t, st[u := s], ReactivateStart(u), start, stop) == (st[u := AfterStart(StartOf(t[u], start)).0], Returned)
    ensures CallStep(t, st[u := s], DeactivateStop(u), start, stop) == (st[u := AfterStop(StopOf(t[u], stop)).0], Returned)
    ensures CallStep(t, st[u := s], ShutdownStop(u), start, stop) == (st[u := Stopped(StoppedFinal, [])], Returned)
  {
    Overwrite(st, u, s, AfterStart(StartOf(t[u], start)).0);
    Overwrite(st, u, s, AfterStop(StopOf(t[u], stop)).0);
    Overwrite(st, u, s, Stopped(StoppedFinal, []));
  }

  lemma MiddleStep(t: UnitTable, st: StatusMap, u: UnitId, s: Status, start: StartOutcome, stop: StopOutcome)
    requires TableCovers(t, st[u := s]) && u in t && u in st
    ensures CallStep(t, st[u := s], ReactivateStop(u), start, stop)
      == if stop.StopFailure? then (st[u := AfterStop(stop).0], Returned) else (st[u := s], ReactivateStart(u))
  {
    Overwrite(st, u, s, AfterStop(stop).0);
  }

  lemma StillCovers(t: UnitTable, st: StatusMap, u: UnitId, s: Status)
    requires TableCovers(t, st) && u in t
    ensures u in st && TableCovers(t, st[u := s])
  {
  }

  /** The steps of a start that runs on its own add up to the whole transition. */
  lemma StartAloneIsWhole(t: UnitTable, st: StatusMap, u: UnitId, source: Source, start: StartOutcome, stop: StopOutcome)
    requires TableCovers(t, st) && u in t && t[u].id == u && forall a :: a in t[u].deps.after ==> a in st
    ensures Alone(t, st, ActivateCheck(u, source), start, stop, 3)
      == (st[u := ActivateStatus(t[u], st, source, StartOf(t[u], start)).0], Returned)
  {
    hide Alone;
    hide UnreadyDeps;
    hide TableCovers;
    hide AfterStart;
    hide NeedsActivation;
    StillCovers(t, st, u, Starting);
    var r := AloneInThree(t, st, ActivateCheck(u, source), start, stop);
    LastStep(t, st, u, Starting, start, stop);
    Overwrite(st, u, Starting, Starting);
  }

  lemma StopAloneIsWhole(t: UnitTable, st: StatusMap, u: UnitId, start: StartOutcome, stop: StopOutcome)
    requires TableCovers(t, st) && u in t && t[u].id == u && forall a :: a in t[u].deps.requiredBy ==> a in st
    ensures Alone(t, st, DeactivateCheck(u), start, stop, 3)
      == (st[u := DeactivateStatus(t[u], st, StopOf(t[u], stop)).0], Returned)
  {
    hide Alone;
    hide UnkilledDependents;
    hide TableCovers;
    hide AfterStop;
    StillCovers(t, st, u, Stopping);
    var r := AloneInThree(t, st, DeactivateCheck(u), start, stop);
    LastStep(t, st, u, Stopping, start, stop);
    Overwrite(st, u, Stopping, Stopping);
  }

  lemma RestartAloneIsWhole(t: UnitTable, st: StatusMap, u: UnitId, start: StartOutcome, stop: StopOutcome)
    requires TableCovers(t, st) && u in t && t[u].id == u && forall a :: a in t[u].deps.after ==> a in st
    ensures Alone(t, st, ReactivateGuard(u), start, stop, 3)
      == (st[u := ReactivateStatus(t[u], st, StopOf(t[u], stop), StartOf(t[u], start)).0], Returned)
  {
    hide Alone;
    hide UnreadyDeps;
    hide TableCovers;
    hide AfterStart;
    hide AfterStop;
    StillCovers(t, st, u, Restarting);
    var r := AloneInThree(t, st, ReactivateGuard(u), start, stop);
    MiddleStep(t, st, u, Restarting, start, stop);
    LastStep(t, st, u, Restarting, start, stop);
    Overwrite(st, u, Restarting, Restarting);
  }

  lemma ShutdownAloneIsWhole(t: UnitTable, st: StatusMap, u: UnitId, start: StartOutcome, stop: StopOutcome)
    requires TableCovers(t, st) && u in t && u in st
    ensures Alone(t, st, ShutdownPick(u), start, stop, 3)
      == (if st[u].Started? then st[u := Stopped(StoppedFinal, [])] else st, Returned)
  {
    hide Alone;
    hide TableCovers;
    StillCovers(t, st, u, Stopping);
    var r := AloneInThree(t, st, ShutdownPick(u), start, stop);
    LastStep(t, st, u, Stopping, start, stop);
  }

  // ---------- whole histories ----------

  /** The unit has been seen started at some moment up to `k`. */
  ghost predicate OnceStarted(ws: seq<World>, k: nat, a: UnitId)
    requires k < |ws|
  {
    exists j :: 0 <= j <= k && a in ws[j].st && ws[j].st[a].Started?
  }

  /** By moment `k` every predecessor of `u` has been tried, and every required one has been started at some moment. */
  ghost predicate Founded(t: UnitTable, ws: seq<World>, k: nat, u: UnitId)
    requires k < |ws|
  {
    u in t && forall a :: a in t[u].deps.after ==>
      Tried(ws[k].st, a) && (a in t[u].deps.requires_ ==> OnceStarted(ws, k, a))
  }

  ghost predicate AllFounded(t: UnitTable, ws: seq<World>, k: nat)
    requires k < |ws|
  {
    && (forall u :: u in ws[k].st && Active(ws[k].st[u]) ==> Founded(t, ws, k, u))
    && (forall i, u :: 0 <= i < |ws[k].calls| && ws[k].calls[i].Starts(u) ==> Founded(t, ws, k, u))
  }

  lemma ReadyIsFounded(t: UnitTable, ws: seq<World>, k: nat, u: UnitId)
    requires k < |ws| && DepsReady(t, ws[k].st, u)
    ensures Founded(t, ws, k, u)
  {
  }

  lemma StaysFounded(t: UnitTable, ws: seq<World>, k: nat, n: nat)
    requires n == k + 1 < |ws| && StaysTried(ws[k].st, ws[n].st)
    ensures forall u :: Founded(t, ws, k, u) ==> Founded(t, ws, n, u)
  {
    forall a | OnceStarted(ws, k, a) ensures OnceStarted(ws, n, a) {
      var j :| 0 <= j <= k && a in ws[j].st && ws[j].st[a].Started?;
      assert 0 <= j <= n;
    }
  }

  lemma NextKeepsFounded(t: UnitTable, ws: seq<World>, k: nat, n: nat, e: Event)
    requires n == k + 1 < |ws| && Next(t, ws[k], e, ws[n]) && AllFounded(t, ws, k)
    ensures AllFounded(t, ws, n) && StaysTried(ws[k].st, ws[n].st)
    ensures Typed(t, ws[n])
  {
    hide Founded;
    hide CallStep;
    if e.Step? {
      var c := ws[k].calls[e.i];
      CallStepEffect(t, ws[k].st, c, e.start, e.stop);
      if DepsReady(t, ws[k].st, c.u) {
        ReadyIsFounded(t, ws, k, c.u);
      }
    }
    StaysFounded(t, ws, k, n);
    var w, w' := ws[k], ws[n];
    forall i, u | 0 <= i < |w'.calls| && w'.calls[i].Starts(u) ensures Founded(t, ws, n, u) {
      if i < |w.calls| && (e.Step? ==> i != e.i) {
        assert w.calls[i].Starts(u);
      }
      assert Founded(t, ws, k, u);
    }
    forall u | u in w'.st && Active(w'.st[u]) ensures Founded(t, ws, n, u) {
      assert Active(w.st[u]) || Founded(t, ws, k, u);
    }
  }

  lemma {:induction false} HistoryIsFounded(t: UnitTable, ws: seq<World>, events: seq<Event>, k: nat)
    requires IsHistory(t, ws, events) && k <= |events|
    ensures AllFounded(t, ws, k) && Typed(t, ws[k])
  {
    if k > 0 {
      HistoryIsFounded(t, ws, events, k - 1);
      hide AllFounded;
      hide Next;
      assert Next(t, ws[k - 1], events[k - 1], ws[k]);
      NextKeepsFounded(t, ws, k - 1, k, events[k - 1]);
    }
  }

  /**
   * However the calls overlap, while a unit is starting, restarting or started no unit it comes after is NeverStarted,
   * and each one it requires has been started before.
   */
  lemma ActiveHasPredecessorsTried(t: UnitTable, ws: seq<World>, events: seq<Event>, k: nat, u: UnitId, a: UnitId)
    requires IsHistory(t, ws, events) && k <= |events|
    requires u in t && u in ws[k].st && Active(ws[k].st[u]) && a in t[u].deps.after
    ensures a in ws[k].st && ws[k].st[a] != NeverStarted
    ensures a in t[u].deps.requires_ ==> OnceStarted(ws, k, a)
  {
    HistoryIsFounded(t, ws, events, k);
    assert Founded(t, ws, k, u);
  }

  /** No status ever returns to NeverStarted. */
  lemma {:induction false} NeverStartedNeverReturns(t: UnitTable, ws: seq<World>, events: seq<Event>, j: nat, k: nat, x: UnitId)
    requires IsHistory(t, ws, events) && j <= k <= |events| && Tried(ws[j].st, x)
    ensures Tried(ws[k].st, x)
  {
    if j < k {
      NeverStartedNeverReturns(t, ws, events, j, k - 1, x);
      HistoryIsFounded(t, ws, events, k - 1);
      hide AllFounded;
      hide Next;
      assert Next(t, ws[k - 1], events[k - 1], ws[k]);
      NextKeepsFounded(t, ws, k - 1, k, events[k - 1]);
    }
  }
}
