/** The status of a unit and the transitions that activation, deactivation and reactivation make. */
module UnitStatus {
  import opened Units
  import opened Digraph

  datatype StatusStarted = Running | WaitingForSocket

  datatype StatusStopped = StoppedFinal | StoppedUnexpected

  datatype ServiceError =
    | AlreadyHasPid
    | InetdNotSupported
    | PreparingFailed
    | PrestartFailed
    | PrestartAndPoststopFailed
    | StartFailed
    | StartAndPoststopFailed
    | PoststartAndPoststopFailed
    | StopFailed
    | StopAndPoststopFailed
    | PoststopFailed

  datatype Reason =
    | UnitNotFound
    | SocketOpenError
    | SocketCloseError
    | ServiceStartError(e: ServiceError)
    | ServiceStopError(e: ServiceError)
    | DependencyError(ids: set<UnitId>)

  datatype Status =
    | NeverStarted
    | Starting
    | Stopping
    | Restarting
    | Started(how: StatusStarted)
    | Stopped(kind: StatusStopped, errors: seq<Reason>)

  type StatusMap = map<UnitId, Status>

  datatype Source = Regular | SocketActivation

  datatype OpResult = Ok | Err(reason: Reason)

  // ---------- guards ----------

  /** A required predecessor has to be started, any other predecessor must have been tried. */
  predicate DepReady(u: Unit, a: UnitId, st: StatusMap)
    requires a in st
  {
    if a in u.deps.requires_ then st[a].Started? else st[a] != NeverStarted
  }

  /** What keeps a unit from starting: predecessors that were never tried, and required ones that are not started. */
  function UnreadyDeps(u: Unit, st: StatusMap): (ids: set<UnitId>)
    requires forall a :: a in u.deps.after ==> a in st
    ensures forall a :: a in ids <==>
      a in u.deps.after && (st[a] == NeverStarted || (a in u.deps.requires_ && !st[a].Started?))
  {
    set a | a in u.deps.after && !DepReady(u, a, st)
  }

  function UnkilledDependents(u: Unit, st: StatusMap): (ids: set<UnitId>)
    requires forall a :: a in u.deps.requiredBy ==> a in st
    ensures forall a :: a in ids <==> a in u.deps.requiredBy && st[a].Started?
  {
    set a | a in u.deps.requiredBy && st[a].Started?
  }

  lemma AllDepsReady(u: Unit, st: StatusMap)
    requires (forall a :: a in u.deps.after ==> a in st) && UnreadyDeps(u, st) == {}
    ensures forall a :: a in u.deps.after ==> DepReady(u, a, st)
  {
    var ids := UnreadyDeps(u, st);
    assert forall a :: a in u.deps.after && !DepReady(u, a, st) ==> a in ids;
  }

  /** With mirrored dependencies an empty set of unkilled dependents means that no started unit requires this one. */
  lemma NoDependents(t: UnitTable, st: StatusMap, id: UnitId)
    requires Mirrored(t) && id in t && (forall a :: a in t[id].deps.requiredBy ==> a in st)
    requires UnkilledDependents(t[id], st) == {}
    ensures forall u :: u in t && u in st && st[u].Started? ==> id !in t[u].deps.requires_
  {
    forall u | u in t && id in t[u].deps.requires_ ensures u in t[id].deps.requiredBy {
      assert Has(t, u, Requires, id);
      assert Has(t, id, Mirror(Requires), u);
    }
    var ids := UnkilledDependents(t[id], st);
    assert forall u :: u in t[id].deps.requiredBy && st[u].Started? ==> u in ids;
  }

  // ---------- whole transitions ----------

  /** What the start of the unit itself comes to, once its guard has let it through. */
  datatype StartOutcome = DidStart(how: StatusStarted) | StartFailure(e: Reason)

  datatype StopOutcome = DidStop | StopFailure(e: Reason)

  /** A started unit is left alone, unless it waits for its socket and the socket woke it. */
  predicate NeedsActivation(s: Status, source: Source) {
    match s
    case Started(WaitingForSocket) => source == SocketActivation
    case Started(Running) => false
    case Stopped(_, _) => source != SocketActivation
    case _ => true
  }

  function AfterStart(o: StartOutcome): (Status, OpResult) {
    match o
    case DidStart(how) => (Started(how), Ok)
    case StartFailure(e) => (Stopped(StoppedUnexpected, [e]), Err(e))
  }

  function AfterStop(o: StopOutcome): (Status, OpResult) {
    match o
    case DidStop => (Stopped(StoppedFinal, []), Ok)
    case StopFailure(e) => (Stopped(StoppedFinal, [e]), Err(e))
  }

  /** The new status of the unit and the result of Unit::activate. */
  function ActivateStatus(u: Unit, st: StatusMap, source: Source, o: StartOutcome): (Status, OpResult)
    requires u.id in st && forall a :: a in u.deps.after ==> a in st
  {
    if !NeedsActivation(st[u.id], source) then (st[u.id], Ok)
    else if UnreadyDeps(u, st) != {} then (st[u.id], Err(DependencyError(UnreadyDeps(u, st))))
    else AfterStart(o)
  }

  /** Running units, waiting ones that no socket has woken, and stopped ones that a socket has woken. */
  ghost predicate LeftAlone(s: Status, source: Source) {
    || s == Started(Running)
    || (s == Started(WaitingForSocket) && source == Regular)
    || (s.Stopped? && source == SocketActivation)
  }

  /**
   * What a start comes to, over the statuses, for a unit that is not left alone: it is refused exactly if a
   * predecessor was never tried or a required one is not started; and if not, it ends up started, or stopped with the
   * error it reports.
   */
  lemma ActivateResult(u: Unit, st: StatusMap, source: Source, o: StartOutcome)
    requires u.id in st && forall a :: a in u.deps.after ==> a in st
    requires o.StartFailure? ==> !o.e.DependencyError?
    ensures var (s, r) := ActivateStatus(u, st, source, o);
      if LeftAlone(st[u.id], source) then s == st[u.id] && r == Ok
      else
        && Attempt(u, st, s, r)
        && (r == Ok ==> o.DidStart? && s == Started(o.how))
        && (r.Err? && !r.reason.DependencyError? ==> s.kind == StoppedUnexpected)
  {
    UnreadyExactly(u, st);
    hide UnreadyDeps;
    match st[u.id] {
      case Started(Running) =>
      case Started(WaitingForSocket) =>
      case _ =>
    }
  }

  lemma UnreadyExactly(u: Unit, st: StatusMap)
    requires forall a :: a in u.deps.after ==> a in st
    ensures UnreadyDeps(u, st) != {} <==> exists a ::
      a in u.deps.after && a in st && (st[a] == NeverStarted || (a in u.deps.requires_ && !st[a].Started?))
  {
    var ids := UnreadyDeps(u, st);
    assert ids != {} <==> exists a :: a in ids;
  }

  /** A refusal names what is missing and leaves the status; any other attempt ends started, or stopped with its error. */
  ghost predicate Attempt(u: Unit, st: StatusMap, s: Status, r: OpResult) {
    && u.id in st
    && (r == Ok ==> s.Started?)
    && (r.Err? && r.reason.DependencyError? ==> s == st[u.id] && forall a :: a in r.reason.ids <==>
         a in u.deps.after && a in st && (st[a] == NeverStarted || (a in u.deps.requires_ && !st[a].Started?)))
    && (r.Err? && r.reason.DependencyError? <==> exists a ::
         a in u.deps.after && a in st && (st[a] == NeverStarted || (a in u.deps.requires_ && !st[a].Started?)))
    && (r.Err? && !r.reason.DependencyError? ==> s.Stopped? && s.errors == [r.reason])
  }

  /** The new status of the unit and the result of Unit::deactivate. */
  function DeactivateStatus(u: Unit, st: StatusMap, o: StopOutcome): (Status, OpResult)
    requires u.id in st && forall a :: a in u.deps.requiredBy ==> a in st
  {
    if st[u.id].Stopped? then (st[u.id], Ok)
    else if UnkilledDependents(u, st) != {} then (st[u.id], Err(DependencyError(UnkilledDependents(u, st))))
    else AfterStop(o)
  }

  /** The new status of the unit and the result of Unit::reactivate: a started unit is stopped first. */
  function ReactivateStatus(u: Unit, st: StatusMap, stop: StopOutcome, o: StartOutcome): (Status, OpResult)
    requires u.id in st && forall a :: a in u.deps.after ==> a in st
  {
    if UnreadyDeps(u, st) != {} then (st[u.id], Err(DependencyError(UnreadyDeps(u, st))))
    else if st[u.id].Started? && stop.StopFailure? then AfterStop(stop)
    else AfterStart(o)
  }

  /** A restart attempts a start whatever the status of the unit; only of a started one the stop can fail first. */
  lemma ReactivateResult(u: Unit, st: StatusMap, stop: StopOutcome, o: StartOutcome)
    requires u.id in st && forall a :: a in u.deps.after ==> a in st
    requires (o.StartFailure? ==> !o.e.DependencyError?) && (stop.StopFailure? ==> !stop.e.DependencyError?)
    ensures var (s, r) := ReactivateStatus(u, st, stop, o);
      && Attempt(u, st, s, r)
      && (r == Ok ==> o.DidStart? && s == Started(o.how) && (st[u.id].Started? ==> stop.DidStop?))
      && (r.Err? && !r.reason.DependencyError? ==>
           if st[u.id].Started? && stop.StopFailure? then r.reason == stop.e && s.kind == StoppedFinal
           else o == StartFailure(r.reason) && s.kind == StoppedUnexpected)
  {
    UnreadyExactly(u, st);
    hide UnreadyDeps;
  }

  /** A stop leaves stopped units alone, is refused exactly for started dependents, and else ends stopped in any case. */
  lemma DeactivateResult(u: Unit, st: StatusMap, o: StopOutcome)
    requires u.id in st && forall a :: a in u.deps.requiredBy ==> a in st
    requires o.StopFailure? ==> !o.e.DependencyError?
    ensures var (s, r) := DeactivateStatus(u, st, o);
      && (st[u.id].Stopped? ==> s == st[u.id] && r == Ok)
      && (r.Err? && r.reason.DependencyError? ==> s == st[u.id] && forall a :: a in r.reason.ids <==> a in u.deps.requiredBy && st[a].Started?)
      && (r.Err? && r.reason.DependencyError? <==>
           !st[u.id].Stopped? && exists a :: a in u.deps.requiredBy && a in st && st[a].Started?)
      && (!st[u.id].Stopped? && !(r.Err? && r.reason.DependencyError?) ==>
           s == Stopped(StoppedFinal, if r == Ok then [] else [r.reason]))
  {
  }

  // ---------- requires-consistency ----------

  /** While a unit is started, everything it requires and is ordered after is started. */
  ghost predicate RequiresConsistent(t: UnitTable, st: StatusMap) {
    forall u, v :: u in t && u in st && st[u].Started? && v in t[u].deps.requires_ && v in t[u].deps.after ==>
      v in st && st[v].Started?
  }

  ghost predicate TableCovers(t: UnitTable, st: StatusMap) {
    Closed(t) && WellKeyed(t) && st.Keys == t.Keys
  }

  lemma CoversDeps(t: UnitTable, st: StatusMap, id: UnitId)
    requires TableCovers(t, st) && id in t
    ensures t[id].id == id && id in st
    ensures forall r: Rel, a :: a in t[id].deps.Get(r) ==> a in st
    ensures forall a :: a in t[id].deps.after ==> a in st
    ensures forall a :: a in t[id].deps.before ==> a in st
    ensures forall a :: a in t[id].deps.requiredBy ==> a in st
  {
    forall r: Rel, a | a in t[id].deps.Get(r) ensures a in st {
      assert Has(t, id, r, a);
    }
    assert t[id].deps.Get(After) == t[id].deps.after && t[id].deps.Get(RequiredBy) == t[id].deps.requiredBy;
    assert t[id].deps.Get(Before) == t[id].deps.before;
  }

  /** A unit that is started only now has its required predecessors started: its guard saw to that. */
  lemma ActivateKeepsConsistency(t: UnitTable, st: StatusMap, id: UnitId, o: StartOutcome)
    requires TableCovers(t, st) && id in t && id !in t[id].deps.after && RequiresConsistent(t, st)
    requires forall a :: a in t[id].deps.after ==> a in st
    requires t[id].id == id
    ensures RequiresConsistent(t, st[id := ActivateStatus(t[id], st, Regular, o).0])
  {
    var u := t[id];
    var st' := st[id := ActivateStatus(u, st, Regular, o).0];
    if st'[id].Started? && !st[id].Started? {
      AllDepsReady(u, st);
    }
    StartedUnitsStay(t, st, id, st'[id]);
  }

  /** Changing one status keeps the invariant if no dependent loses a requirement and the unit has its own. */
  lemma StartedUnitsStay(t: UnitTable, st: StatusMap, id: UnitId, s: Status)
    requires id in t && id in st && RequiresConsistent(t, st)
    requires st[id].Started? ==> s.Started? || NoStartedDependent(t, st, id)
    requires s.Started? && !st[id].Started? ==>
      forall v :: v in t[id].deps.requires_ && v in t[id].deps.after ==> v in st && st[v].Started? && v != id
    ensures RequiresConsistent(t, st[id := s])
  {
  }

  /** No started unit requires this one and is ordered after it. */
  ghost predicate NoStartedDependent(t: UnitTable, st: StatusMap, id: UnitId) {
    forall u :: u in t && u in st && st[u].Started? ==> !(id in t[u].deps.requires_ && id in t[u].deps.after)
  }

  /** A unit is stopped only when no started unit requires it; `required_by` mirrors `requires`. */
  lemma DeactivateKeepsConsistency(t: UnitTable, st: StatusMap, id: UnitId, o: StopOutcome)
    requires TableCovers(t, st) && Mirrored(t) && id in t && RequiresConsistent(t, st)
    requires forall a :: a in t[id].deps.requiredBy ==> a in st
    requires t[id].id == id
    ensures RequiresConsistent(t, st[id := DeactivateStatus(t[id], st, o).0])
  {
    var s := DeactivateStatus(t[id], st, o).0;
    if st[id].Started? && !s.Started? {
      NoDependents(t, st, id);
    }
    StartedUnitsStay(t, st, id, s);
  }

  ghost predicate DepsIn(t: UnitTable, st: StatusMap, id: UnitId) {
    id in t && t[id].id == id && id in st && forall a :: a in t[id].deps.after ==> a in st
  }

  /** The restart will be refused, or does not touch a started unit, or no started unit relies on the unit. */
  ghost predicate SafeRestart(t: UnitTable, st: StatusMap, id: UnitId)
    requires DepsIn(t, st, id)
  {
    UnreadyDeps(t[id], st) != {} || !st[id].Started? || NoStartedDependent(t, st, id)
  }

  /** A regular start is always safe; waking a waiting service is if it will be refused or no started unit relies on it. */
  ghost predicate SafeStart(t: UnitTable, st: StatusMap, id: UnitId, source: Source)
    requires DepsIn(t, st, id)
  {
    || source == Regular
    || UnreadyDeps(t[id], st) != {} || st[id] != Started(WaitingForSocket) || NoStartedDependent(t, st, id)
  }

  /** A unit whose requirements are started may become started; it may stop being so if no started unit relies on it. */
  lemma StatusConsistency(t: UnitTable, st: StatusMap, id: UnitId, s: Status)
    requires id in t && id in st && id !in t[id].deps.after && RequiresConsistent(t, st)
    requires s.Started? && !st[id].Started? ==>
      forall v :: v in t[id].deps.requires_ && v in t[id].deps.after ==> v in st && st[v].Started?
    ensures RequiresConsistent(t, st[id := s]) <==> !st[id].Started? || s.Started? || NoStartedDependent(t, st, id)
  {
    var st' := st[id := s];
    if st[id].Started? && !s.Started? && !NoStartedDependent(t, st, id) {
      var u :| u in t && u in st && st[u].Started? && id in t[u].deps.requires_ && id in t[u].deps.after;
      assert st'[u].Started? && !st'[id].Started?;
    } else {
      StartedUnitsStay(t, st, id, s);
    }
  }

  /** What one restart does: unless it is safe, consistency hangs on its outcomes. */
  lemma RestartOutcome(t: UnitTable, st: StatusMap, id: UnitId, stop: StopOutcome, o: StartOutcome)
    requires DepsIn(t, st, id) && id !in t[id].deps.after && RequiresConsistent(t, st)
    ensures RequiresConsistent(t, st[id := ReactivateStatus(t[id], st, stop, o).0])
      <==> SafeRestart(t, st, id) || (stop.DidStop? && o.DidStart?)
  {
    if UnreadyDeps(t[id], st) == {} {
      AllDepsReady(t[id], st);
    }
    hide UnreadyDeps;
    StatusConsistency(t, st, id, ReactivateStatus(t[id], st, stop, o).0);
  }

  lemma StartOutcomeMatters(t: UnitTable, st: StatusMap, id: UnitId, source: Source, o: StartOutcome)
    requires DepsIn(t, st, id) && id !in t[id].deps.after && RequiresConsistent(t, st)
    ensures RequiresConsistent(t, st[id := ActivateStatus(t[id], st, source, o).0])
      <==> SafeStart(t, st, id, source) || o.DidStart?
  {
    if UnreadyDeps(t[id], st) == {} {
      AllDepsReady(t[id], st);
    }
    hide UnreadyDeps;
    StatusConsistency(t, st, id, ActivateStatus(t[id], st, source, o).0);
  }

  /**
   * What a caller can check before a restart: it keeps requires-consistency, however it turns out, if and only if it is
   * refused, or the unit is not started, or no started unit requires it and comes after it.
   */
  lemma RestartConsistencyIff(t: UnitTable, st: StatusMap, id: UnitId)
    requires DepsIn(t, st, id) && id !in t[id].deps.after && RequiresConsistent(t, st)
    ensures (forall stop, o :: RequiresConsistent(t, st[id := ReactivateStatus(t[id], st, stop, o).0]))
      <==> SafeRestart(t, st, id)
  {
    hide RequiresConsistent;
    hide SafeRestart;
    hide ReactivateStatus;
    forall stop, o ensures RequiresConsistent(t, st[id := ReactivateStatus(t[id], st, stop, o).0])
        <==> SafeRestart(t, st, id) || (stop.DidStop? && o.DidStart?)
    {
      RestartOutcome(t, st, id, stop, o);
    }
    var failing := StartFailure(SocketOpenError);
    assert !failing.DidStart?;
    RestartOutcome(t, st, id, DidStop, failing);
  }

  /** And before a start: a regular one always does; waking a service that waits only if no started unit relies on it. */
  lemma StartConsistencyIff(t: UnitTable, st: StatusMap, id: UnitId, source: Source)
    requires DepsIn(t, st, id) && id !in t[id].deps.after && RequiresConsistent(t, st)
    ensures (forall o :: RequiresConsistent(t, st[id := ActivateStatus(t[id], st, source, o).0]))
      <==> SafeStart(t, st, id, source)
  {
    hide RequiresConsistent;
    hide SafeStart;
    hide ActivateStatus;
    forall o ensures RequiresConsistent(t, st[id := ActivateStatus(t[id], st, source, o).0])
        <==> SafeStart(t, st, id, source) || o.DidStart?
    {
      StartOutcomeMatters(t, st, id, source, o);
    }
    var failing := StartFailure(SocketOpenError);
    StartOutcomeMatters(t, st, id, source, failing);
  }

  // ---------- shutdown ----------

  /** A started unit that comes before no other started unit. */
  predicate NextToShutDown(t: UnitTable, st: StatusMap, id: UnitId) {
    && id in t && id in st && st[id].Started?
    && forall b :: b in t[id].deps.before && b in st ==> !st[b].Started?
  }

  /** A unit is shut down only when nothing started comes after it; `before` mirrors `after`. */
  lemma ShutdownKeepsConsistency(t: UnitTable, st: StatusMap, id: UnitId)
    requires TableCovers(t, st) && Mirrored(t) && RequiresConsistent(t, st) && NextToShutDown(t, st, id)
    ensures RequiresConsistent(t, st[id := Stopped(StoppedFinal, [])])
  {
    forall u | u in t && u in st && st[u].Started? ensures !(id in t[u].deps.requires_ && id in t[u].deps.after) {
      assert Has(t, u, After, id) ==> Has(t, id, Mirror(After), u);
    }
    StartedUnitsStay(t, st, id, Stopped(StoppedFinal, []));
  }

  /** In an acyclic table there is a unit to shut down as long as anything is started. */
  lemma SomethingToShutDown(t: UnitTable, st: StatusMap)
    requires TableCovers(t, st) && Acyclic(BeforeGraph(t))
    requires exists x :: x in st && st[x].Started?
    ensures exists id :: NextToShutDown(t, st, id)
  {
    var started := set x | x in st && st[x].Started?;
    var x :| x in st && st[x].Started?;
    assert x in started;
    var id := AcyclicHasSink(BeforeGraph(t), started);
    forall b | b in t[id].deps.before && b in st ensures !st[b].Started? {
      assert Edge(BeforeGraph(t), id, b);
    }
    assert NextToShutDown(t, st, id);
  }

  /** Every unit in the order comes after all units that it comes before and that were started. */
  ghost predicate StopsLaterFirst(t: UnitTable, st: StatusMap, order: seq<UnitId>) {
    forall i, b :: 0 <= i < |order| && order[i] in t && b in t[order[i]].deps.before && b in st && st[b].Started? ==>
      b in order[..i]
  }

  /** The units in the order have been stopped, the others are as they were. */
  ghost predicate ShutDownSoFar(t: UnitTable, st0: StatusMap, st: StatusMap, order: seq<UnitId>) {
    && st.Keys == st0.Keys
    && NoRepeat(order)
    && (forall x :: x in order ==> x in st0 && st0[x].Started?)
    && (forall x :: x in st ==> st[x] == if x in order then Stopped(StoppedFinal, []) else st0[x])
    && StopsLaterFirst(t, st0, order)
  }

  lemma NothingStopped(t: UnitTable, st: StatusMap)
    ensures ShutDownSoFar(t, st, st, [])
  {
  }

  lemma ShutDownOneMore(t: UnitTable, st0: StatusMap, st: StatusMap, order: seq<UnitId>, id: UnitId)
    requires ShutDownSoFar(t, st0, st, order) && NextToShutDown(t, st, id)
    ensures ShutDownSoFar(t, st0, st[id := Stopped(StoppedFinal, [])], order + [id])
  {
    var longer := order + [id];
    forall i, b | 0 <= i < |longer| && longer[i] in t && b in t[longer[i]].deps.before && b in st0 && st0[b].Started?
      ensures b in longer[..i]
    {
      if i < |order| {
        assert longer[..i] == order[..i] && order[i] == longer[i];
      } else {
        assert longer[..i] == order && longer[i] == id;
      }
    }
  }

  /** The statuses once the given units have been shut down. */
  function AfterStops(st: StatusMap, order: seq<UnitId>): StatusMap {
    map x | x in st :: if x in order then Stopped(StoppedFinal, []) else st[x]
  }

  /** Requires-consistency holds after each of the stops. */
  ghost predicate ConsistentThroughout(t: UnitTable, st: StatusMap, order: seq<UnitId>) {
    forall k :: 0 <= k <= |order| ==> RequiresConsistent(t, AfterStops(st, order[..k]))
  }

  lemma ConsistentAtFirst(t: UnitTable, st: StatusMap)
    requires RequiresConsistent(t, st)
    ensures ConsistentThroughout(t, st, [])
  {
    var none: seq<UnitId> := [];
    assert AfterStops(st, none[..0]) == st;
  }

  lemma ConsistentAfterOneMore(t: UnitTable, st0: StatusMap, st: StatusMap, order: seq<UnitId>, id: UnitId)
    requires TableCovers(t, st) && Mirrored(t) && ShutDownSoFar(t, st0, st, order) && NextToShutDown(t, st, id)
    requires ConsistentThroughout(t, st0, order)
    ensures ConsistentThroughout(t, st0, order + [id])
  {
    hide StopsLaterFirst;
    var longer := order + [id];
    assert order[..|order|] == order && AfterStops(st0, order) == st;
    hide NextToShutDown;
    ShutdownKeepsConsistency(t, st, id);
    assert AfterStops(st0, longer) == st[id := Stopped(StoppedFinal, [])];
    hide AfterStops;
    hide RequiresConsistent;
    forall k | 0 <= k <= |longer| ensures RequiresConsistent(t, AfterStops(st0, longer[..k])) {
      if k <= |order| {
        assert longer[..k] == order[..k];
      } else {
        assert longer[..k] == longer;
      }
    }
  }

  lemma FewerStarted(t: UnitTable, st: StatusMap, id: UnitId)
    requires NextToShutDown(t, st, id)
    ensures var st' := st[id := Stopped(StoppedFinal, [])];
      |set x | x in st' && st'[x].Started?| < |set x | x in st && st[x].Started?|
  {
    var st' := st[id := Stopped(StoppedFinal, [])];
    var a, b := (set x | x in st && st[x].Started?), (set x | x in st' && st'[x].Started?);
    assert b == a - {id};
  }

  // ---------- no unit after itself ----------

  ghost predicate NoSelfOrder(t: UnitTable) {
    forall u :: u in t ==> u !in t[u].deps.after
  }

  lemma AcyclicHasNoSelfOrder(t: UnitTable)
    requires Acyclic(BeforeGraph(t)) && Mirrored(t)
    ensures NoSelfOrder(t)
  {
    forall u | u in t ensures u !in t[u].deps.after {
      if u in t[u].deps.after {
        assert Has(t, u, After, u);
        assert Has(t, u, Mirror(After), u);
        assert IsCycle(BeforeGraph(t), [u]);
      }
    }
  }

  // ---------- recursive stop ----------

  /** `x` is one of the roots or requires one of them, over any number of steps. */
  ghost predicate Dependent(g: Graph, roots: seq<UnitId>, x: UnitId) {
    exists root :: root in roots && Reaches(g, root, x)
  }

  /**
   * What stopping the roots with all their dependents comes to, with result `r`. Only dependents change, and only to
   * stopped, each after everything that requires it has stopped cleanly. Ok means all of them are stopped, cleanly unless
   * they were before; an error is that of the one unit that failed to stop, never that of a dependent still running.
   */
  ghost predicate StopEffect(g: Graph, roots: seq<UnitId>, st0: StatusMap, st1: StatusMap, r: OpResult) {
    && st1.Keys == st0.Keys
    && (forall x :: x in st0 && (st0[x].Stopped? || !Dependent(g, roots, x)) ==> st1[x] == st0[x])
    && (forall x :: x in st0 && st1[x] != st0[x] ==> st1[x].Stopped?)
    && AfterDependents(g, st0, st1)
    && (r.Ok? ==> AllStoppedCleanly(g, roots, st0, st1))
    && (r.Err? ==> !r.reason.DependencyError? && !r.reason.UnitNotFound? && FailedToStop(g, roots, st0, st1, r.reason))
  }

  /** Whatever requires a unit that has been stopped has stopped cleanly. */
  ghost predicate AfterDependents(g: Graph, st0: StatusMap, st1: StatusMap) {
    forall x, y :: x in st0 && x in st1 && st1[x] != st0[x] && Edge(g, x, y) ==> StoppedCleanly(st0, st1, y)
  }

  /** The unit was stopped before or has been stopped without an error. */
  predicate StoppedCleanly(st0: StatusMap, st1: StatusMap, x: UnitId) {
    x in st0 && x in st1 && if st0[x].Stopped? then st1[x] == st0[x] else st1[x] == Stopped(StoppedFinal, [])
  }

  ghost predicate AllStoppedCleanly(g: Graph, roots: seq<UnitId>, st0: StatusMap, st1: StatusMap) {
    forall x :: x in st0 && Dependent(g, roots, x) ==> StoppedCleanly(st0, st1, x)
  }

  ghost predicate FailedToStop(g: Graph, roots: seq<UnitId>, st0: StatusMap, st1: StatusMap, e: Reason) {
    exists x :: x in st0 && x in st1 && Dependent(g, roots, x) && !st0[x].Stopped? && st1[x] == Stopped(StoppedFinal, [e])
      && forall y :: y in st0 && y != x && y in st1 && st1[y] != st0[y] ==> st1[y] == Stopped(StoppedFinal, [])
  }

  lemma StopEffectOfNone(g: Graph, st: StatusMap)
    ensures StopEffect(g, [], st, st, Ok)
  {
  }

  lemma DependentOfMore(g: Graph, roots: seq<UnitId>, id: UnitId)
    ensures forall x :: Dependent(g, roots + [id], x) <==> Dependent(g, roots, x) || Dependent(g, [id], x)
  {
    forall x | Dependent(g, roots, x) ensures Dependent(g, roots + [id], x) {
      var root :| root in roots && Reaches(g, root, x);
      assert root in roots + [id];
    }
    forall x | Dependent(g, [id], x) ensures Dependent(g, roots + [id], x) {
      assert id in roots + [id] && Reaches(g, id, x);
    }
    forall x | Dependent(g, roots + [id], x) ensures Dependent(g, roots, x) || Dependent(g, [id], x) {
      var root :| root in roots + [id] && Reaches(g, root, x);
      assert root in roots || root in [id];
    }
  }

  lemma StopEffectOfMore(g: Graph, roots: seq<UnitId>, id: UnitId, st0: StatusMap, st1: StatusMap, st2: StatusMap, r: OpResult)
    requires StopEffect(g, roots, st0, st1, Ok) && StopEffect(g, [id], st1, st2, r)
    ensures StopEffect(g, roots + [id], st0, st2, r)
  {
    DependentOfMore(g, roots, id);
    hide Dependent;
  }

  lemma StopsStay(g: Graph, roots: seq<UnitId>, more: seq<UnitId>, st0: StatusMap, st1: StatusMap, st2: StatusMap, r: OpResult)
    requires StopEffect(g, roots, st0, st1, Ok) && StopEffect(g, more, st1, st2, r)
    ensures AllStoppedCleanly(g, roots, st0, st2)
  {
    hide Dependent;
  }

  /** The dependents of a unit are the unit itself and the dependents of the units that require it. */
  lemma DependentOfUnit(g: Graph, id: UnitId)
    requires id in g
    ensures forall x :: Dependent(g, [id], x) <==> x == id || Dependent(g, g[id], x)
  {
    ReachesSelf(g, id);
    assert id in [id];
    forall x | Dependent(g, [id], x) && x != id ensures Dependent(g, g[id], x) {
      var y := ReachesUnfold(g, id, x);
    }
    forall x | Dependent(g, g[id], x) ensures Dependent(g, [id], x) {
      var y :| y in g[id] && Reaches(g, y, x);
      ReachesStep(g, id, y, x);
    }
  }

  /** A stopped unit is left alone; any other ends up stopped, with the error if there was one. */
  predicate StopStep(before: Status, after: Status, r: OpResult) {
    if before.Stopped? then after == before && r == Ok
    else match r
      case Ok => after == Stopped(StoppedFinal, [])
      case Err(e) => after == Stopped(StoppedFinal, [e]) && !e.DependencyError? && !e.UnitNotFound?
  }

  /** First the units that require it, then the unit itself. */
  lemma StopEffectOfUnit(g: Graph, id: UnitId, st0: StatusMap, st1: StatusMap, s: Status, r: OpResult)
    requires id in g && id in st0 && id in st1 && StopEffect(g, g[id], st0, st1, Ok)
    requires StopStep(st1[id], s, r) && forall y :: y in g[id] ==> y in st0
    ensures StopEffect(g, [id], st0, st1[id := s], r)
  {
    hide StopEffect;
    if st1[id].Stopped? {
      assert st1[id := s] == st1;
      StopEffectOfStopped(g, id, st0, st1);
    } else {
      StopEffectOfLast(g, id, st0, st1, s, r);
    }
  }

  lemma StopEffectOfStopped(g: Graph, id: UnitId, st0: StatusMap, st1: StatusMap)
    requires id in g && id in st0 && id in st1 && StopEffect(g, g[id], st0, st1, Ok) && st1[id].Stopped?
    ensures StopEffect(g, [id], st0, st1, Ok)
  {
    DependentOfUnit(g, id);
    hide Dependent;
    assert !st0[id].Stopped? ==> Dependent(g, g[id], id);
  }

  lemma DirectDependents(g: Graph, id: UnitId)
    requires id in g
    ensures forall y :: y in g[id] ==> Dependent(g, g[id], y)
  {
    forall y | y in g[id] ensures Dependent(g, g[id], y) {
      ReachesSelf(g, y);
    }
  }

  lemma StopEffectOfLast(g: Graph, id: UnitId, st0: StatusMap, st1: StatusMap, s: Status, r: OpResult)
    requires id in g && id in st0 && id in st1 && StopEffect(g, g[id], st0, st1, Ok)
    requires StopStep(st1[id], s, r) && !st1[id].Stopped? && forall y :: y in g[id] ==> y in st0
    ensures StopEffect(g, [id], st0, st1[id := s], r)
  {
    hide Dependent;
    hide FailedToStop;
    hide AfterDependents;
    hide AllStoppedCleanly;
    DependentOfUnit(g, id);
    LastAfterDependents(g, id, st0, st1, s);
    match r {
      case Ok => LastAllStopped(g, id, st0, st1);
      case Err(e) => LastFailed(g, id, st0, st1, e);
    }
  }

  lemma LastAllStopped(g: Graph, id: UnitId, st0: StatusMap, st1: StatusMap)
    requires id in g && id in st0 && id in st1 && AllStoppedCleanly(g, g[id], st0, st1) && !st0[id].Stopped?
    requires st1.Keys == st0.Keys
    ensures AllStoppedCleanly(g, [id], st0, st1[id := Stopped(StoppedFinal, [])])
  {
    DependentOfUnit(g, id);
    hide Dependent;
    forall x | x in st0 && Dependent(g, [id], x) ensures StoppedCleanly(st0, st1[id := Stopped(StoppedFinal, [])], x) {
      assert x != id ==> StoppedCleanly(st0, st1, x);
    }
  }

  lemma LastAfterDependents(g: Graph, id: UnitId, st0: StatusMap, st1: StatusMap, s: Status)
    requires id in g && id in st0 && id in st1 && AfterDependents(g, st0, st1) && AllStoppedCleanly(g, g[id], st0, st1)
    requires !st1[id].Stopped? && forall y :: y in g[id] ==> y in st0
    ensures AfterDependents(g, st0, st1[id := s])
  {
    DirectDependents(g, id);
    hide Dependent;
    forall x, y | x in st0 && x in st1 && st1[id := s][x] != st0[x] && Edge(g, x, y) ensures StoppedCleanly(st0, st1[id := s], y) {
      assert StoppedCleanly(st0, st1, y);
      StaysClean(st0, st1, id, s, y);
    }
  }

  /** What has stopped cleanly is not the unit that is still to be stopped. */
  lemma StaysClean(st0: StatusMap, st1: StatusMap, id: UnitId, s: Status, y: UnitId)
    requires StoppedCleanly(st0, st1, y) && id in st1 && !st1[id].Stopped?
    ensures StoppedCleanly(st0, st1[id := s], y)
  {
  }

  lemma LastFailed(g: Graph, id: UnitId, st0: StatusMap, st1: StatusMap, e: Reason)
    requires id in g && id in st0 && id in st1 && StopEffect(g, g[id], st0, st1, Ok) && !st1[id].Stopped?
    requires Dependent(g, [id], id)
    ensures FailedToStop(g, [id], st0, st1[id := Stopped(StoppedFinal, [e])], e)
  {
    hide Dependent;
    hide AfterDependents;
    var st2 := st1[id := Stopped(StoppedFinal, [e])];
    forall y | y in st0 && y != id && y in st2 && st2[y] != st0[y] ensures st2[y] == Stopped(StoppedFinal, []) {
      assert StoppedCleanly(st0, st1, y);
    }
    assert id in st0 && id in st2 && Dependent(g, [id], id) && !st0[id].Stopped? && st2[id] == Stopped(StoppedFinal, [e]);
  }

  lemma StopEffectOfFailure(g: Graph, id: UnitId, st0: StatusMap, st1: StatusMap, r: OpResult)
    requires id in g && StopEffect(g, g[id], st0, st1, r) && r.Err?
    ensures StopEffect(g, [id], st0, st1, r)
  {
    DependentOfUnit(g, id);
    hide Dependent;
  }

  /** An error is the same whether or not further units would have been stopped. */
  lemma StopEffectStretches(g: Graph, some: seq<UnitId>, all: seq<UnitId>, st0: StatusMap, st1: StatusMap, r: OpResult)
    requires StopEffect(g, some, st0, st1, r) && r.Err? && some <= all
    ensures StopEffect(g, all, st0, st1, r)
  {
    forall x | Dependent(g, some, x) ensures Dependent(g, all, x) {
      var root :| root in some && Reaches(g, root, x);
      assert root in all;
    }
    hide Dependent;
  }

  lemma StoppedDependents(g: Graph, ids: seq<UnitId>, st0: StatusMap, st1: StatusMap)
    requires StopEffect(g, ids, st0, st1, Ok)
    ensures forall x :: x in ids && x in st0 ==> st1[x].Stopped?
  {
    forall x | x in ids && x in st0 ensures st1[x].Stopped? {
      ReachesSelf(g, x);
      assert Dependent(g, ids, x);
    }
  }
}
