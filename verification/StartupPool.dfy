/**
 * The parallel start of all needed units, as steps of the activities in the thread pool. Any activity may step next;
 * a start may succeed or fail. An activity in phase Queued that has not been picked up is a job waiting in the pool.
 */
module StartupPool {
  import opened Wrappers

  import opened Units
  import opened IdVectors
  import opened UnitStatus

  /** A unit whose predecessors are being looked at one after the other. */
  datatype Cursor = Cursor(u: UnitId, left: seq<UnitId>, ready: bool)

  datatype Act =
    /** find_startable_units; the first scan looks at all needed units and its result is scanned again. */
    | Scan(first: bool, todo: seq<UnitId>, cur: Option<Cursor>, found: seq<UnitId>)
    /** pushing a task for each startable unit */
    | Submit(found: seq<UnitId>)
    /** a task that waits for a thread and for the lock on the state of its unit */
    | Queued(u: UnitId)
    /** inside Unit::activate, with the lock: before the test of the own status, before the guard, while starting */
    | Check(u: UnitId)
    | Guard(u: UnitId)
    | Run(u: UnitId)
    /** pushing the job for the units that come after this one */
    | Next(u: UnitId)
    | Done
  {
    predicate Locks(id: UnitId) {
      (Check? || Guard? || Run?) && u == id
    }
  }

  /** `failed` records the units whose start failed. */
  datatype State = State(st: StatusMap, acts: seq<Act>, failed: set<UnitId>)

  /** The units with everything the runs rely on: the ids that may be started are closed under `after`. */
  ghost predicate Startable(t: UnitTable, needed: set<UnitId>) {
    && WellKeyed(t) && Closed(t) && Mirrored(t) && needed <= t.Keys
    && forall u, a :: u in needed && a in t[u].deps.after ==> a in needed
  }

  function Init(t: UnitTable, ids: seq<UnitId>): State {
    State(map u | u in t :: NeverStarted, [Scan(true, ids, None, [])], {})
  }

  /** Everything can step but a task whose unit is locked by another activity. */
  predicate Enabled(s: State, i: nat) {
    && i < |s.acts|
    && s.acts[i] != Done
    && (s.acts[i].Queued? ==> forall j :: 0 <= j < |s.acts| ==> !s.acts[j].Locks(s.acts[i].u))
  }

  function Become(s: State, i: nat, a: Act): State
    requires i < |s.acts|
  {
    s.(acts := s.acts[i := a])
  }

  // ---------- the steps ----------

  predicate IdsIn(t: UnitTable, ids: seq<UnitId>) {
    forall x :: x in ids ==> x in t
  }

  predicate ActIn(t: UnitTable, a: Act) {
    match a
    case Scan(_, todo, cur, found) =>
      IdsIn(t, todo) && IdsIn(t, found) && (cur.Some? ==> cur.value.u in t && IdsIn(t, cur.value.left))
    case Submit(found) => IdsIn(t, found)
    case Done => true
    case _ => a.u in t
  }

  ghost predicate WellTyped(t: UnitTable, s: State) {
    s.st.Keys == t.Keys && forall i :: 0 <= i < |s.acts| ==> ActIn(t, s.acts[i])
  }

  function ScanStep(t: UnitTable, needed: set<UnitId>, st: StatusMap, a: Act): Act
    requires a.Scan? && ActIn(t, a) && st.Keys == t.Keys
  {
    match a.cur
    case None =>
      if a.todo != [] then a.(todo := a.todo[1..], cur := Some(Cursor(a.todo[0], t[a.todo[0]].deps.after, true)))
      else if a.first then Scan(false, a.found, None, [])
      else Submit(Filter(a.found, needed))
    case Some(c) =>
      if c.left != [] then
        a.(cur := Some(c.(left := c.left[1..], ready := c.ready && DepReady(t[c.u], c.left[0], st))))
      else a.(cur := None, found := if c.ready then a.found + [c.u] else a.found)
  }

  /** One step of activity `i`; `o` is what the start of a unit comes to, if that is the step. */
  function Step(t: UnitTable, needed: set<UnitId>, s: State, i: nat, o: StartOutcome): State
    requires Closed(t) && WellTyped(t, s) && Enabled(s, i)
  {
    var a := s.acts[i];
    match a
    case Scan(_, _, _, _) => Become(s, i, ScanStep(t, needed, s.st, a))
    case Submit(found) =>
      if found == [] then Become(s, i, Done)
      else s.(acts := s.acts[i := Submit(found[1..])] + [Queued(found[0])])
    case Queued(u) => Become(s, i, Check(u))
    case Check(u) => Become(s, i, if NeedsActivation(s.st[u], Regular) then Guard(u) else Next(u))
    case Guard(u) =>
      AfterInTable(t, u);
      if UnreadyDeps(t[u], s.st) != {} then Become(s, i, Done)
      else Become(s, i, Run(u)).(st := s.st[u := Starting])
    case Run(u) =>
      var s' := s.(st := s.st[u := AfterStart(o).0]);
      if o.DidStart? then Become(s', i, Next(u)) else Become(s', i, Done).(failed := s.failed + {u})
    case Next(u) => s.(acts := s.acts[i := Done] + [Scan(false, t[u].deps.before, None, [])])
  }

  lemma AfterInTable(t: UnitTable, u: UnitId)
    requires Closed(t) && u in t
    ensures IdsIn(t, t[u].deps.after) && IdsIn(t, t[u].deps.before)
  {
    forall a | a in t[u].deps.after ensures a in t {
      assert Has(t, u, After, a);
    }
    forall b | b in t[u].deps.before ensures b in t {
      assert Has(t, u, Before, b);
    }
  }

  // ---------- a task on its own ----------

  predicate InTask(a: Act) {
    a.Check? || a.Guard? || a.Run?
  }

  lemma TaskStep(t: UnitTable, needed: set<UnitId>, s: State, i: nat, o: StartOutcome)
    requires Closed(t) && WellTyped(t, s) && i < |s.acts| && InTask(s.acts[i])
    ensures Enabled(s, i) && WellTyped(t, Step(t, needed, s, i, o)) && i < |Step(t, needed, s, i, o).acts|
  {
    assert ActIn(t, s.acts[i]);
    hide UnreadyDeps;
  }

  /** Up to `n` steps of a task, after it has got the lock on its unit, that no other activity comes between. */
  function TaskAlone(t: UnitTable, needed: set<UnitId>, s: State, i: nat, o: StartOutcome, n: nat): State
    requires Closed(t) && WellTyped(t, s) && i < |s.acts|
    decreases n
  {
    if n == 0 || !InTask(s.acts[i]) then s
    else
      TaskStep(t, needed, s, i, o);
      TaskAlone(t, needed, Step(t, needed, s, i, o), i, o, n - 1)
  }

  lemma TaskAloneFrom(t: UnitTable, needed: set<UnitId>, s: State, i: nat, o: StartOutcome, n: nat)
    requires Closed(t) && WellTyped(t, s) && i < |s.acts| && InTask(s.acts[i]) && n > 0
    ensures Enabled(s, i) && WellTyped(t, Step(t, needed, s, i, o)) && i < |Step(t, needed, s, i, o).acts|
    ensures TaskAlone(t, needed, s, i, o, n) == TaskAlone(t, needed, Step(t, needed, s, i, o), i, o, n - 1)
  {
    TaskStep(t, needed, s, i, o);
  }

  /** The steps of a task add up to the whole activation of its unit; it goes on to the later units exactly on Ok. */
  lemma TaskAloneIsWhole(t: UnitTable, needed: set<UnitId>, s: State, i: nat, o: StartOutcome, u: UnitId)
    requires Closed(t) && WellTyped(t, s) && i < |s.acts| && s.acts[i] == Check(u)
    requires u in t && t[u].id == u && u in s.st && forall a :: a in t[u].deps.after ==> a in s.st
    ensures var s' := TaskAlone(t, needed, s, i, o, 3); var r := ActivateStatus(t[u], s.st, Regular, o);
      s'.st == s.st[u := r.0] && i < |s'.acts| && s'.acts[i] == if r.1.Ok? then Next(u) else Done
  {
    hide UnreadyDeps;
    hide Closed;
    hide WellTyped;
    TaskAloneFrom(t, needed, s, i, o, 3);
    var s1 := Step(t, needed, s, i, o);
    assert s1.st == s.st && s.st[u := s.st[u]] == s.st;
    if InTask(s1.acts[i]) {
      TaskAloneFrom(t, needed, s1, i, o, 2);
      var s2 := Step(t, needed, s1, i, o);
      if InTask(s2.acts[i]) {
        TaskAloneFrom(t, needed, s2, i, o, 1);
        assert s.st[u := Starting][u := AfterStart(o).0] == s.st[u := AfterStart(o).0];
      }
    }
  }

  // ---------- the invariant ----------

  ghost predicate Ready(t: UnitTable, st: StatusMap, u: UnitId)
    requires u in t && IdsIn(t, t[u].deps.after) && st.Keys == t.Keys
  {
    forall a :: a in t[u].deps.after ==> DepReady(t[u], a, st)
  }

  ghost predicate AllReady(t: UnitTable, st: StatusMap, ids: seq<UnitId>)
    requires Closed(t) && IdsIn(t, ids) && st.Keys == t.Keys
  {
    forall u :: u in ids ==> (AfterInTable(t, u); Ready(t, st, u))
  }

  /** So far every predecessor that is no longer left to look at was found ready. */
  ghost predicate CursorOk(t: UnitTable, st: StatusMap, c: Cursor)
    requires c.u in t && IdsIn(t, t[c.u].deps.after) && st.Keys == t.Keys
  {
    && (forall a :: a in c.left ==> a in t[c.u].deps.after)
    && (c.ready ==> forall a :: a in t[c.u].deps.after && a !in c.left ==> DepReady(t[c.u], a, st))
  }

  /** What each activity may rely on: the units it is about to start are needed and ready. */
  ghost predicate ActOk(t: UnitTable, needed: set<UnitId>, st: StatusMap, a: Act)
    requires Closed(t) && st.Keys == t.Keys
  {
    && ActIn(t, a)
    && match a
      case Scan(_, todo, cur, found) =>
        AllReady(t, st, found) && (cur.Some? ==> (AfterInTable(t, cur.value.u); CursorOk(t, st, cur.value)))
      case Submit(found) => AllReady(t, st, found) && forall u :: u in found ==> u in needed
      case Queued(u) => AllReady(t, st, [u]) && u in needed
      case Check(u) => AllReady(t, st, [u]) && u in needed
      case Guard(u) => AllReady(t, st, [u]) && u in needed && !st[u].Started?
      case Run(u) => AllReady(t, st, [u]) && u in needed && st[u] == Starting
      case Next(u) => true
      case Done => true
  }

  ghost predicate ActsOk(t: UnitTable, needed: set<UnitId>, s: State)
    requires Closed(t) && s.st.Keys == t.Keys
  {
    forall i :: 0 <= i < |s.acts| ==> ActOk(t, needed, s.st, s.acts[i])
  }

  ghost predicate Mutex(acts: seq<Act>) {
    forall i, j, u :: 0 <= i < |acts| && 0 <= j < |acts| && acts[i].Locks(u) && acts[j].Locks(u) ==> i == j
  }

  /** The activity will, in the end, bring the unit to its start. */
  predicate Covers(t: UnitTable, a: Act, u: UnitId)
    requires ActIn(t, a)
  {
    match a
    case Scan(_, todo, cur, found) => u in todo || u in found || (cur.Some? && cur.value.u == u && cur.value.ready)
    case Submit(found) => u in found
    case Next(d) => u in t[d].deps.before
    case Done => false
    case _ => a.u == u
  }

  ghost predicate Pending(t: UnitTable, s: State, u: UnitId) {
    exists i :: 0 <= i < |s.acts| && ActIn(t, s.acts[i]) && Covers(t, s.acts[i], u)
  }

  ghost predicate DepsStarted(t: UnitTable, st: StatusMap, u: UnitId) {
    u in t && forall a :: a in t[u].deps.after ==> a in st && st[a].Started?
  }

  /** A needed unit whose predecessors are all started is started itself, has failed, or is still on its way. */
  ghost predicate NothingForgotten(t: UnitTable, needed: set<UnitId>, s: State) {
    forall u :: u in needed && u in s.st && DepsStarted(t, s.st, u) && !s.st[u].Started? && u !in s.failed ==> Pending(t, s, u)
  }

  /** Only needed units are touched, and a unit is being started or started only with its predecessors ready. */
  ghost predicate StatusesOk(t: UnitTable, needed: set<UnitId>, st: StatusMap)
    requires Closed(t) && st.Keys == t.Keys
  {
    && (forall u :: u in st && u !in needed ==> st[u] == NeverStarted)
    && (forall u :: u in st ==> !st[u].Stopping? && !st[u].Restarting?)
    && (forall u :: u in st && (st[u] == Starting || st[u].Started?) ==> (AfterInTable(t, u); Ready(t, st, u)))
  }

  ghost predicate Inv(t: UnitTable, needed: set<UnitId>, s: State)
    requires Closed(t)
  {
    && s.st.Keys == t.Keys
    && ActsOk(t, needed, s)
    && Mutex(s.acts)
    && StatusesOk(t, needed, s.st)
    && NothingForgotten(t, needed, s)
  }

  // ---------- statuses only move on ----------

  ghost predicate MovesOn(st: StatusMap, st': StatusMap) {
    && st'.Keys == st.Keys
    && forall x :: x in st ==> (st[x].Started? ==> st'[x].Started?) && (st[x] != NeverStarted ==> st'[x] != NeverStarted)
  }

  lemma ReadyStays(t: UnitTable, st: StatusMap, st': StatusMap)
    requires Closed(t) && st.Keys == t.Keys && MovesOn(st, st')
    ensures forall u, a :: u in t && a in t && DepReady(t[u], a, st) ==> DepReady(t[u], a, st')
    ensures forall ids :: IdsIn(t, ids) && AllReady(t, st, ids) ==> AllReady(t, st', ids)
  {
    forall u, a | u in t && a in t && DepReady(t[u], a, st) ensures DepReady(t[u], a, st') {}
    forall ids | IdsIn(t, ids) && AllReady(t, st, ids) ensures AllReady(t, st', ids) {
      forall u | u in ids ensures (AfterInTable(t, u); Ready(t, st', u)) {
        AfterInTable(t, u);
        assert Ready(t, st, u);
      }
    }
  }

  /** Moving on does not disturb an activity whose own unit is left alone. */
  lemma ActOkStays(t: UnitTable, needed: set<UnitId>, st: StatusMap, st': StatusMap, a: Act)
    requires Closed(t) && st.Keys == t.Keys && MovesOn(st, st') && ActOk(t, needed, st, a)
    requires forall u :: u in t && a.Locks(u) ==> st'[u] == st[u]
    ensures ActOk(t, needed, st', a)
  {
    ReadyStays(t, st, st');
    hide DepReady;
    hide AllReady;
    match a {
      case Scan(_, _, cur, _) =>
        if cur.Some? {
          AfterInTable(t, cur.value.u);
        }
      case Guard(u) => assert a.Locks(u);
      case Run(u) => assert a.Locks(u);
      case _ =>
    }
  }

  // ---------- one step keeps the invariant ----------

  /** Only the unit that the stepping activity has locked changes its status. */
  lemma StepMovesOn(t: UnitTable, needed: set<UnitId>, s: State, i: nat, o: StartOutcome)
    requires Closed(t) && Inv(t, needed, s) && WellTyped(t, s) && Enabled(s, i)
    ensures var s' := Step(t, needed, s, i, o);
      MovesOn(s.st, s'.st) && forall x :: x in s.st && !s.acts[i].Locks(x) ==> s'.st[x] == s.st[x]
  {
    hide StatusesOk;
    hide NothingForgotten;
    hide Mutex;
    hide AllReady;
    hide UnreadyDeps;
    hide ScanStep;
    assert ActOk(t, needed, s.st, s.acts[i]);
  }

  lemma InvIsWellTyped(t: UnitTable, needed: set<UnitId>, s: State)
    requires Closed(t) && Inv(t, needed, s)
    ensures WellTyped(t, s)
  {
    forall i | 0 <= i < |s.acts| ensures ActIn(t, s.acts[i]) {
      assert ActOk(t, needed, s.st, s.acts[i]);
    }
  }

  lemma OneIsReady(t: UnitTable, st: StatusMap, u: UnitId)
    requires Closed(t) && u in t && st.Keys == t.Keys && AllReady(t, st, [u])
    ensures IdsIn(t, t[u].deps.after) && Ready(t, st, u) && UnreadyDeps(t[u], st) == {}
  {
    AfterInTable(t, u);
    assert u in [u];
  }

  /** The scan of one activity keeps what the activity may rely on. */
  lemma ScanKeepsOk(t: UnitTable, needed: set<UnitId>, st: StatusMap, a: Act)
    requires Closed(t) && st.Keys == t.Keys && a.Scan? && ActOk(t, needed, st, a)
    ensures ActOk(t, needed, st, ScanStep(t, needed, st, a))
  {
    hide DepReady;
    match a.cur {
      case None =>
        if a.todo != [] {
          AfterInTable(t, a.todo[0]);
        }
      case Some(c) =>
        AfterInTable(t, c.u);
        if c.left == [] && c.ready {
          assert Ready(t, st, c.u);
        }
    }
  }

  /** The guard never refuses: the scheduler has applied the same test, and what was ready stays ready. */
  lemma GuardPasses(t: UnitTable, needed: set<UnitId>, s: State, i: nat, o: StartOutcome)
    requires Closed(t) && WellTyped(t, s) && Enabled(s, i) && s.acts[i].Guard? && ActOk(t, needed, s.st, s.acts[i])
    ensures var s' := Step(t, needed, s, i, o); var u := s.acts[i].u;
      && s'.st == s.st[u := Starting] && s'.acts == s.acts[i := Run(u)]
      && ActOk(t, needed, s'.st, Run(u))
  {
    var u := s.acts[i].u;
    OneIsReady(t, s.st, u);
    ReadyStays(t, s.st, s.st[u := Starting]);
    assert IdsIn(t, [u]);
    hide Ready;
    hide UnreadyDeps;
  }

  /** The other phases of a task keep what the activity may rely on; a job for later units starts a new scan. */
  lemma TaskKeepsOk(t: UnitTable, needed: set<UnitId>, s: State, i: nat, o: StartOutcome)
    requires Closed(t) && WellTyped(t, s) && Enabled(s, i) && !s.acts[i].Scan? && ActOk(t, needed, s.st, s.acts[i])
    ensures var s' := Step(t, needed, s, i, o);
      ActOk(t, needed, s'.st, s'.acts[i]) && forall k :: |s.acts| <= k < |s'.acts| ==> ActOk(t, needed, s'.st, s'.acts[k])
  {
    hide Ready;
    hide UnreadyDeps;
    var s' := Step(t, needed, s, i, o);
    match s.acts[i] {
      case Submit(found) =>
        if found != [] {
          assert s'.acts[|s.acts|] == Queued(found[0]);
        }
      case Guard(u) => GuardPasses(t, needed, s, i, o);
      case Next(u) =>
        AfterInTable(t, u);
        assert s'.acts[|s.acts|] == Scan(false, t[u].deps.before, None, []);
      case _ =>
    }
  }

  lemma StepKeepsActs(t: UnitTable, needed: set<UnitId>, s: State, i: nat, o: StartOutcome)
    requires Closed(t) && WellTyped(t, s) && Inv(t, needed, s) && Enabled(s, i)
    ensures ActsOk(t, needed, Step(t, needed, s, i, o))
  {
    var s' := Step(t, needed, s, i, o);
    StepMovesOn(t, needed, s, i, o);
    assert ActOk(t, needed, s.st, s.acts[i]);
    if s.acts[i].Scan? {
      ScanKeepsOk(t, needed, s.st, s.acts[i]);
    } else {
      TaskKeepsOk(t, needed, s, i, o);
    }
    forall j | 0 <= j < |s.acts| && j != i ensures ActOk(t, needed, s'.st, s'.acts[j]) {
      StepLeavesOthers(t, needed, s, i, o, j);
      ActOkStays(t, needed, s.st, s'.st, s.acts[j]);
    }
    StepShape(t, needed, s, i, o);
    hide ActOk;
    hide Step;
  }

  lemma StepShape(t: UnitTable, needed: set<UnitId>, s: State, i: nat, o: StartOutcome)
    requires Closed(t) && WellTyped(t, s) && Enabled(s, i)
    ensures var s' := Step(t, needed, s, i, o);
      |s.acts| <= |s'.acts| && s'.st.Keys == s.st.Keys && s.failed <= s'.failed
      && forall j :: 0 <= j < |s.acts| && j != i ==> s'.acts[j] == s.acts[j]
  {
    hide ScanStep;
    hide UnreadyDeps;
  }

  lemma StepLeavesOthers(t: UnitTable, needed: set<UnitId>, s: State, i: nat, o: StartOutcome, j: nat)
    requires Closed(t) && WellTyped(t, s) && Inv(t, needed, s) && Enabled(s, i) && j < |s.acts| && j != i
    ensures var s' := Step(t, needed, s, i, o);
      s'.acts[j] == s.acts[j] && (forall u :: u in t && s.acts[j].Locks(u) ==> s'.st[u] == s.st[u])
  {
    StepMovesOn(t, needed, s, i, o);
    StepShape(t, needed, s, i, o);
    hide Step;
  }

  lemma StepKeepsMutex(t: UnitTable, needed: set<UnitId>, s: State, i: nat, o: StartOutcome)
    requires Closed(t) && WellTyped(t, s) && Mutex(s.acts) && Enabled(s, i)
    ensures Mutex(Step(t, needed, s, i, o).acts)
  {
    var s' := Step(t, needed, s, i, o);
    StepShape(t, needed, s, i, o);
    StepLocks(t, needed, s, i, o);
    hide Step;
    forall j, k, u | 0 <= j < |s'.acts| && 0 <= k < |s'.acts| && s'.acts[j].Locks(u) && s'.acts[k].Locks(u) ensures j == k {
      assert j < |s.acts| && k < |s.acts|;
      if j != i && k != i {
        assert s.acts[j].Locks(u) && s.acts[k].Locks(u);
      }
    }
  }

  /** A lock is taken only when it is free, and new activities hold none. */
  lemma StepLocks(t: UnitTable, needed: set<UnitId>, s: State, i: nat, o: StartOutcome)
    requires Closed(t) && WellTyped(t, s) && Mutex(s.acts) && Enabled(s, i)
    ensures var s' := Step(t, needed, s, i, o);
      && (forall k, u :: |s.acts| <= k < |s'.acts| ==> !s'.acts[k].Locks(u))
      && (forall u, j :: s'.acts[i].Locks(u) && 0 <= j < |s.acts| && j != i ==> !s.acts[j].Locks(u))
  {
    hide ScanStep;
    hide UnreadyDeps;
    hide WellTyped;
    var s' := Step(t, needed, s, i, o);
    forall u, j | s'.acts[i].Locks(u) && 0 <= j < |s.acts| && j != i ensures !s.acts[j].Locks(u) {
      assert s.acts[i].Queued? || s.acts[i].Locks(u) by {
        ScanDoesNotLock(t, needed, s, i);
      }
    }
  }

  lemma ScanDoesNotLock(t: UnitTable, needed: set<UnitId>, s: State, i: nat)
    requires Closed(t) && WellTyped(t, s) && i < |s.acts|
    ensures s.acts[i].Scan? ==> forall u :: !ScanStep(t, needed, s.st, s.acts[i]).Locks(u)
  {
  }

  lemma StepKeepsStatuses(t: UnitTable, needed: set<UnitId>, s: State, i: nat, o: StartOutcome)
    requires Closed(t) && WellTyped(t, s) && Inv(t, needed, s) && Enabled(s, i)
    ensures StatusesOk(t, needed, Step(t, needed, s, i, o).st)
  {
    hide NothingForgotten;
    hide DepReady;
    hide ScanStep;
    hide Mutex;
    hide AllReady;
    hide MovesOn;
    hide UnreadyDeps;
    hide WellTyped;
    var s' := Step(t, needed, s, i, o);
    StepMovesOn(t, needed, s, i, o);
    ReadyStays(t, s.st, s'.st);
    assert ActOk(t, needed, s.st, s.acts[i]);
    hide ActsOk;
    if s.acts[i].Guard? || s.acts[i].Run? {
      OneIsReady(t, s.st, s.acts[i].u);
    }
    forall u | u in s'.st && (s'.st[u] == Starting || s'.st[u].Started?)
      ensures (AfterInTable(t, u); Ready(t, s'.st, u))
    {
      AfterInTable(t, u);
      assert Ready(t, s.st, u);
    }
  }

  // ---------- nothing is forgotten ----------

  /** A scan that covers a unit with all predecessors ready goes on covering it. */
  lemma ScanCovers(t: UnitTable, needed: set<UnitId>, st: StatusMap, a: Act, u: UnitId)
    requires a.Scan? && ActIn(t, a) && st.Keys == t.Keys && Covers(t, a, u) && u in needed
    requires u in t && IdsIn(t, t[u].deps.after) && Ready(t, st, u)
    requires Closed(t) && ActOk(t, needed, st, a)
    ensures ActIn(t, ScanStep(t, needed, st, a)) && Covers(t, ScanStep(t, needed, st, a), u)
  {
    ScanKeepsOk(t, needed, st, a);
    hide AllReady;
    hide CursorOk;
  }

  lemma StepCovers(t: UnitTable, needed: set<UnitId>, s: State, i: nat, o: StartOutcome, u: UnitId)
    requires Closed(t) && WellTyped(t, s) && Inv(t, needed, s) && Enabled(s, i)
    requires u in t && IdsIn(t, t[u].deps.after) && Ready(t, s.st, u)
    requires Covers(t, s.acts[i], u) && u in needed && !s.st[u].Started?
    ensures var s' := Step(t, needed, s, i, o);
      s'.st[u].Started? || u in s'.failed || Pending(t, s', u)
  {
    hide StatusesOk;
    hide NothingForgotten;
    hide Mutex;
    hide Ready;
    var s' := Step(t, needed, s, i, o);
    assert ActOk(t, needed, s.st, s.acts[i]);
    match s.acts[i] {
      case Scan(_, _, _, _) =>
        ScanCovers(t, needed, s.st, s.acts[i], u);
        assert Covers(t, s'.acts[i], u);
      case Submit(found) =>
        if found[0] == u {
          assert s'.acts[|s.acts|] == Queued(u);
        } else {
          assert s'.acts[i] == Submit(found[1..]);
        }
      case Guard(v) =>
        GuardPasses(t, needed, s, i, o);
        assert s'.acts[i] == Run(u);
      case Next(v) =>
        AfterInTable(t, v);
        assert s'.acts[|s.acts|] == Scan(false, t[v].deps.before, None, []);
      case Check(v) => assert s'.acts[i] == Guard(u);
      case Queued(v) => assert s'.acts[i] == Check(u);
      case Run(v) =>
      case Done =>
    }
  }

  /** A unit that becomes started is about to announce itself to the units that come after it. */
  lemma StartedAnnounces(t: UnitTable, needed: set<UnitId>, s: State, i: nat, o: StartOutcome, u: UnitId, a: UnitId)
    requires Closed(t) && Mirrored(t) && WellTyped(t, s) && Inv(t, needed, s) && Enabled(s, i)
    requires u in t && a in t[u].deps.after && a in t && !s.st[a].Started? && Step(t, needed, s, i, o).st[a].Started?
    ensures Pending(t, Step(t, needed, s, i, o), u)
  {
    hide StatusesOk;
    hide NothingForgotten;
    hide Mutex;
    hide ScanStep;
    var s' := Step(t, needed, s, i, o);
    assert s'.acts[i] == Next(a);
    assert Has(t, u, After, a);
    assert Has(t, a, Mirror(After), u);
    assert Covers(t, s'.acts[i], u);
  }

  lemma StartedIsReady(t: UnitTable, st: StatusMap, u: UnitId)
    requires Closed(t) && st.Keys == t.Keys && DepsStarted(t, st, u)
    ensures IdsIn(t, t[u].deps.after) && Ready(t, st, u)
  {
  }

  lemma StepForgetsNothing(t: UnitTable, needed: set<UnitId>, s: State, i: nat, o: StartOutcome)
    requires Startable(t, needed) && WellTyped(t, s) && Inv(t, needed, s) && Enabled(s, i)
    ensures NothingForgotten(t, needed, Step(t, needed, s, i, o))
  {
    var s' := Step(t, needed, s, i, o);
    StepMovesOn(t, needed, s, i, o);
    StepShape(t, needed, s, i, o);
    hide Step;
    hide ActsOk;
    hide Mutex;
    hide StatusesOk;
    forall u | u in needed && u in s'.st && DepsStarted(t, s'.st, u) && !s'.st[u].Started? && u !in s'.failed
      ensures Pending(t, s', u)
    {
      if a :| a in t[u].deps.after && a in s.st && !s.st[a].Started? {
        StartedAnnounces(t, needed, s, i, o, u, a);
      } else {
        AfterInTable(t, u);
        assert DepsStarted(t, s.st, u);
        assert Pending(t, s, u);
        var j :| 0 <= j < |s.acts| && ActIn(t, s.acts[j]) && Covers(t, s.acts[j], u);
        if j == i {
          StartedIsReady(t, s.st, u);
          StepCovers(t, needed, s, i, o, u);
        } else {
          assert s'.acts[j] == s.acts[j];
        }
      }
    }
  }

  /** Every step of every activity keeps the invariant. */
  lemma StepKeepsInv(t: UnitTable, needed: set<UnitId>, s: State, i: nat, o: StartOutcome)
    requires Startable(t, needed) && WellTyped(t, s) && Inv(t, needed, s) && Enabled(s, i)
    ensures Inv(t, needed, Step(t, needed, s, i, o)) && WellTyped(t, Step(t, needed, s, i, o))
  {
    StepShape(t, needed, s, i, o);
    StepKeepsActs(t, needed, s, i, o);
    StepKeepsMutex(t, needed, s, i, o);
    StepKeepsStatuses(t, needed, s, i, o);
    StepForgetsNothing(t, needed, s, i, o);
    hide Step;
    hide ActsOk;
    hide Mutex;
    hide StatusesOk;
    hide NothingForgotten;
    InvIsWellTyped(t, needed, Step(t, needed, s, i, o));
  }
}
