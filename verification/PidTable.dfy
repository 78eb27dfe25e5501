/**
 * The pid table shared by the threads that spawn processes, the handlers that run when a process exits, and the threads
 * that wait for a process. Each critical section is one step; the sections of different threads interleave freely.
 * Pids may be given out again: processes, and everything said about them, are told apart by the order of their birth.
 */
module PidTable {
  import opened Wrappers

  type Pid = int

  /** How a process terminated. */
  type Termination = int

  /** An orphan is a process that was not spawned here but is reaped here. */
  datatype ProcessKind = ServiceProcess | HelperProcess | Orphan

  datatype Process = Process(pid: Pid, kind: ProcessKind, exit: Option<Termination>)

  /** `born` is the process that the entry speaks of; no step depends on it. So it is for handlers and waiters. */
  datatype PidEntry =
    | Service(born: nat)
    | ServiceExited(born: nat, code: Termination)
    | Helper(born: nat)
    | HelperExited(born: nat, code: Termination)
  {
    predicate Exited() {
      ServiceExited? || HelperExited?
    }

    predicate ForService() {
      Service? || ServiceExited?
    }
  }

  /** The exit handler of one process: about to collect the exit, about to save a service as exited, or past both. */
  datatype Handler =
    | Collect(pid: Pid, born: nat, code: Termination)
    | SaveService(pid: Pid, born: nat, code: Termination)
    | Handled
  {
    predicate ActiveFor(p: Pid) {
      !Handled? && pid == p
    }
  }

  datatype WaitResult = InTime(code: Termination) | TimedOut | SignaledReady

  /** A thread that waits for a process; after waiting for a helper it removes the entry once more. */
  datatype Waiter =
    | HelperWait(pid: Pid, born: nat)
    | HelperWaited(pid: Pid, born: nat, r: WaitResult)
    | OneShotWait(pid: Pid, born: nat)
    | NotifyWait(pid: Pid, born: nat)
    | Returned(pid: Pid, born: nat, r: WaitResult)
  {
    predicate OnHelper(p: Pid) {
      (HelperWait? || HelperWaited?) && pid == p
    }

    predicate ActiveFor(p: Pid) {
      !Returned? && pid == p
    }

    predicate HasResult() {
      HelperWaited? || Returned?
    }
  }

  /**
   * `processes` holds all processes in the order of their birth, `latest` the last one that had a pid. `taken` records
   * each exit status that a waiter took out of the table, with the process it belongs to; `impossible` is set when a
   * thread gets into a branch that the original marks as unreachable or reports as an exit that was saved before.
   */
  datatype System = System(
    processes: seq<Process>,
    latest: map<Pid, nat>,
    table: map<Pid, PidEntry>,
    handlers: seq<Handler>,
    waiters: seq<Waiter>,
    taken: seq<(nat, Termination)>,
    impossible: bool)

  // ---------- the critical sections ----------

  datatype Purpose = RunHelper | RunSimple | RunOneShot | RunNotify

  function NewWaiters(p: Pid, born: nat, why: Purpose): seq<Waiter> {
    match why
    case RunHelper => [HelperWait(p, born)]
    case RunSimple => []
    case RunOneShot => [OneShotWait(p, born)]
    case RunNotify => [NotifyWait(p, born)]
  }

  /** Fork and table entry happen under one lock, so no handler can come in between. */
  function Spawn(s: System, p: Pid, why: Purpose): System {
    var n := |s.processes|;
    s.(processes := s.processes + [Process(p, if why == RunHelper then HelperProcess else ServiceProcess, None)],
       latest := s.latest[p := n],
       table := s.table[p := if why == RunHelper then Helper(n) else Service(n)],
       waiters := s.waiters + NewWaiters(p, n, why))
  }

  predicate Alive(s: System, p: Pid) {
    p in s.latest && s.latest[p] < |s.processes| && s.processes[s.latest[p]].exit.None?
  }

  /** The signal handler reaps a process and starts a handler thread for it; a process not spawned here is an orphan. */
  function Exit(s: System, p: Pid, c: Termination): System {
    if Alive(s, p) then
      var n := s.latest[p];
      s.(processes := s.processes[n := s.processes[n].(exit := Some(c))], handlers := s.handlers + [Collect(p, n, c)])
    else
      var n := |s.processes|;
      s.(processes := s.processes + [Process(p, Orphan, Some(c))], latest := s.latest[p := n],
         handlers := s.handlers + [Collect(p, n, c)])
  }

  function HandlerStep(s: System, i: nat): System
    requires i < |s.handlers| && !s.handlers[i].Handled?
  {
    var h := s.handlers[i];
    var done := s.(handlers := s.handlers[i := Handled]);
    match h
    case Collect(p, n, c) =>
      if p !in s.table then done
      else (match s.table[p]
            case Service(_) => s.(handlers := s.handlers[i := SaveService(p, n, c)])
            case Helper(_) => done.(table := s.table[p := HelperExited(n, c)])
            case _ => done.(impossible := true))
    case SaveService(p, n, c) =>
      if p in s.table && s.table[p].Service? then done.(table := s.table[p := ServiceExited(n, c)])
      else done.(table := s.table - {p}, impossible := true)
  }

  datatype WaiterAct = Look | GiveUp | SeeReady

  function Take(s: System, j: nat, p: Pid, e: PidEntry, w: Waiter): System
    requires j < |s.waiters| && e.Exited()
  {
    s.(table := s.table - {p}, waiters := s.waiters[j := w], taken := s.taken + [(e.born, e.code)])
  }

  function WaiterStep(s: System, j: nat, act: WaiterAct): System
    requires j < |s.waiters|
  {
    match s.waiters[j]
    case HelperWait(p, n) =>
      if act == GiveUp then s.(waiters := s.waiters[j := HelperWaited(p, n, TimedOut)])
      else if p !in s.table || s.table[p].ForService() then s.(impossible := true)
      else if s.table[p].Helper? then s
      else Take(s, j, p, s.table[p], HelperWaited(p, n, InTime(s.table[p].code)))
    case HelperWaited(p, n, r) => s.(table := s.table - {p}, waiters := s.waiters[j := Returned(p, n, r)])
    case OneShotWait(p, n) =>
      if act == GiveUp then s.(waiters := s.waiters[j := Returned(p, n, TimedOut)])
      else if p !in s.table || !s.table[p].ForService() then s.(impossible := true)
      else if s.table[p].Service? then s
      else Take(s, j, p, s.table[p], Returned(p, n, InTime(s.table[p].code)))
    case NotifyWait(p, n) =>
      if act == GiveUp then s.(waiters := s.waiters[j := Returned(p, n, TimedOut)])
      else if act == SeeReady then s.(waiters := s.waiters[j := Returned(p, n, SignaledReady)])
      else if p in s.table && s.table[p].ServiceExited? then
        Take(s, j, p, s.table[p], Returned(p, n, InTime(s.table[p].code)))
      else s
    case Returned(_, _, _) => s
  }

  datatype Event =
    | Spawned(p: Pid, why: Purpose)
    | Exited(p: Pid, c: Termination)
    | HandlerRuns(i: nat)
    | WaiterRuns(j: nat, act: WaiterAct)

  /**
   * What can happen at all: the system does not give out the pid of a process that is still alive, and only who waits
   * for a notification can see one.
   */
  predicate Possible(s: System, e: Event) {
    match e
    case Spawned(p, _) => !Alive(s, p)
    case Exited(p, _) => true
    case HandlerRuns(i) => i < |s.handlers| && !s.handlers[i].Handled?
    case WaiterRuns(j, act) => j < |s.waiters| && (act == SeeReady ==> s.waiters[j].NotifyWait? || s.waiters[j].Returned?)
  }

  function Next(s: System, e: Event): System
    requires Possible(s, e)
  {
    match e
    case Spawned(p, why) => Spawn(s, p, why)
    case Exited(p, c) => Exit(s, p, c)
    case HandlerRuns(i) => HandlerStep(s, i)
    case WaiterRuns(j, act) => WaiterStep(s, j, act)
  }

  const START := System([], map[], map[], [], [], [], false)

  // ---------- which reuse of a pid is harmless ----------

  predicate Handling(hs: seq<Handler>, p: Pid) {
    exists i :: 0 <= i < |hs| && hs[i].ActiveFor(p)
  }

  predicate Awaited(ws: seq<Waiter>, p: Pid) {
    exists j :: 0 <= j < |ws| && ws[j].ActiveFor(p)
  }

  /** The exit of the last process with the pid is still being handled, or a thread still waits for that process. */
  predicate Busy(s: System, p: Pid) {
    Handling(s.handlers, p) || Awaited(s.waiters, p)
  }

  /** A pid that is spawned is not busy, and an orphan that exits has a pid without an entry. */
  predicate Harmless(s: System, e: Event) {
    && (e.Spawned? ==> !Busy(s, e.p))
    && (e.Exited? && !Alive(s, e.p) ==> e.p !in s.table)
  }

  ghost predicate IsRun(ss: seq<System>, events: seq<Event>) {
    && |ss| == |events| + 1
    && ss[0] == START
    && forall k :: 0 <= k < |events| ==>
      Possible(ss[k], events[k]) && Harmless(ss[k], events[k]) && ss[k + 1] == Next(ss[k], events[k])
  }

  // ---------- the invariant ----------

  predicate Has(ps: seq<Process>, n: nat, p: Pid) {
    n < |ps| && ps[n].pid == p
  }

  /** What the entry of a pid says about the last process with that pid. */
  predicate EntryOk(ps: seq<Process>, latest: map<Pid, nat>, table: map<Pid, PidEntry>, p: Pid)
    requires p in table
  {
    && p in latest && table[p].born == latest[p] && latest[p] < |ps|
    && (ps[latest[p]].kind == if table[p].ForService() then ServiceProcess else HelperProcess)
    && (table[p].Exited() ==> ps[latest[p]].exit == Some(table[p].code))
  }

  /** The handler belongs to a process that has exited; an entry under its pid is that of its process, not yet saved. */
  predicate HandlerOk(ps: seq<Process>, latest: map<Pid, nat>, table: map<Pid, PidEntry>, h: Handler) {
    h.Handled? || (
      && Has(ps, h.born, h.pid) && ps[h.born].exit == Some(h.code)
      && (h.pid in table ==> table[h.pid].born == h.born && !table[h.pid].Exited())
      && (h.pid in latest && latest[h.pid] < |ps| ==> ps[latest[h.pid]].exit.Some?)
      && (h.SaveService? || ps[h.born].kind == ServiceProcess ==> h.pid in table && table[h.pid].Service?))
  }

  predicate WaiterOk(ps: seq<Process>, latest: map<Pid, nat>, table: map<Pid, PidEntry>, w: Waiter) {
    && Has(ps, w.born, w.pid)
    && (w.HelperWait? || w.HelperWaited? ==> ps[w.born].kind == HelperProcess)
    && (w.OneShotWait? || w.NotifyWait? ==> ps[w.born].kind == ServiceProcess)
    && (!w.HasResult() ==> w.pid in table)
    && (!w.Returned? && w.pid in table ==> table[w.pid].born == w.born)
    && (w.HasResult() && w.r.InTime? ==> ps[w.born].exit == Some(w.r.code))
  }

  /** The exit was that of the process, and no entry speaks of the process any more. */
  predicate TakenOk(ps: seq<Process>, table: map<Pid, PidEntry>, x: (nat, Termination)) {
    x.0 < |ps| && ps[x.0].exit == Some(x.1) && (ps[x.0].pid in table ==> table[ps[x.0].pid].born != x.0)
  }

  /** Only the handlers of orphans, or of helpers that nobody waits for any more, share a pid. */
  predicate HandlersDiffer(hs: seq<Handler>, table: map<Pid, PidEntry>) {
    forall i, j :: 0 <= i < j < |hs| && !hs[i].Handled? && !hs[j].Handled? && hs[i].pid in table ==> hs[i].pid != hs[j].pid
  }

  predicate WaitersDiffer(ws: seq<Waiter>) {
    forall i, j :: 0 <= i < j < |ws| && !ws[i].Returned? && !ws[j].Returned? ==> ws[i].pid != ws[j].pid
  }

  predicate TakenDiffer(xs: seq<(nat, Termination)>) {
    forall i, j :: 0 <= i < j < |xs| ==> xs[i].0 != xs[j].0
  }

  predicate HelperAwaited(ws: seq<Waiter>, p: Pid) {
    exists j :: 0 <= j < |ws| && ws[j].OnHelper(p)
  }

  /** An exit that is not yet in the table is on its way there; a running service has its entry. */
  predicate ExitOnItsWay(s: System, p: Pid)
    requires p in s.latest && s.latest[p] < |s.processes|
  {
    var process := s.processes[s.latest[p]];
    && process.pid == p
    && (p in s.table && process.exit.Some? && !s.table[p].Exited() ==> Handling(s.handlers, p))
    && (process == Process(p, ServiceProcess, None) ==> p in s.table && s.table[p].Service?)
    && (p in s.table && !s.table[p].ForService() ==> HelperAwaited(s.waiters, p))
  }

  ghost predicate Inv(s: System) {
    && !s.impossible
    && (forall p :: p in s.latest ==> s.latest[p] < |s.processes|)
    && (forall p :: p in s.table ==> EntryOk(s.processes, s.latest, s.table, p))
    && (forall i :: 0 <= i < |s.handlers| ==> HandlerOk(s.processes, s.latest, s.table, s.handlers[i]))
    && (forall j :: 0 <= j < |s.waiters| ==> WaiterOk(s.processes, s.latest, s.table, s.waiters[j]))
    && (forall k :: 0 <= k < |s.taken| ==> TakenOk(s.processes, s.table, s.taken[k]))
    && HandlersDiffer(s.handlers, s.table) && WaitersDiffer(s.waiters) && TakenDiffer(s.taken)
    && (forall p :: p in s.latest ==> ExitOnItsWay(s, p))
  }

  lemma HandlingAfter(hs: seq<Handler>, i: nat, h: Handler)
    requires i < |hs|
    ensures forall p :: Handling(hs, p) ==> Handling(hs[i := h], p) || (hs[i].ActiveFor(p) && !h.ActiveFor(p))
  {
    forall p | Handling(hs, p) && !(hs[i].ActiveFor(p) && !h.ActiveFor(p)) ensures Handling(hs[i := h], p) {
      var k :| 0 <= k < |hs| && hs[k].ActiveFor(p);
      assert hs[i := h][k].ActiveFor(p);
    }
  }

  lemma HandlingMore(hs: seq<Handler>, h: Handler)
    ensures forall p :: Handling(hs, p) || h.ActiveFor(p) ==> Handling(hs + [h], p)
  {
    forall p | Handling(hs, p) || h.ActiveFor(p) ensures Handling(hs + [h], p) {
      var k := if h.ActiveFor(p) then |hs| else var k :| 0 <= k < |hs| && hs[k].ActiveFor(p); k;
      assert (hs + [h])[k].ActiveFor(p);
    }
  }

  lemma AwaitedAfter(ws: seq<Waiter>, j: nat, w: Waiter)
    requires j < |ws|
    ensures forall p :: HelperAwaited(ws, p) ==> HelperAwaited(ws[j := w], p) || (ws[j].OnHelper(p) && !w.OnHelper(p))
  {
    forall p | HelperAwaited(ws, p) && !(ws[j].OnHelper(p) && !w.OnHelper(p)) ensures HelperAwaited(ws[j := w], p) {
      var k :| 0 <= k < |ws| && ws[k].OnHelper(p);
      assert ws[j := w][k].OnHelper(p);
    }
  }

  lemma AwaitedMore(ws: seq<Waiter>, more: seq<Waiter>)
    ensures forall p :: HelperAwaited(ws, p) ==> HelperAwaited(ws + more, p)
    ensures forall p :: HelperAwaited(more, p) ==> HelperAwaited(ws + more, p)
  {
    forall p | HelperAwaited(ws, p) ensures HelperAwaited(ws + more, p) {
      var k :| 0 <= k < |ws| && ws[k].OnHelper(p);
      assert (ws + more)[k].OnHelper(p);
    }
    forall p | HelperAwaited(more, p) ensures HelperAwaited(ws + more, p) {
      var k :| 0 <= k < |more| && more[k].OnHelper(p);
      assert (ws + more)[|ws| + k].OnHelper(p);
    }
  }

  lemma NotBusy(s: System, p: Pid)
    requires !Busy(s, p)
    ensures forall i :: 0 <= i < |s.handlers| && !s.handlers[i].Handled? ==> s.handlers[i].pid != p
    ensures forall j :: 0 <= j < |s.waiters| && !s.waiters[j].Returned? ==> s.waiters[j].pid != p
  {
    forall i | 0 <= i < |s.handlers| && !s.handlers[i].Handled? ensures s.handlers[i].pid != p {
      assert !s.handlers[i].ActiveFor(p);
    }
    forall j | 0 <= j < |s.waiters| && !s.waiters[j].Returned? ensures s.waiters[j].pid != p {
      assert !s.waiters[j].ActiveFor(p);
    }
  }

  lemma SpawnKeepsHandlers(s: System, p: Pid, why: Purpose)
    requires Inv(s) && !Alive(s, p) && !Busy(s, p)
    ensures var s' := Spawn(s, p, why);
      && (forall i :: 0 <= i < |s'.handlers| ==> HandlerOk(s'.processes, s'.latest, s'.table, s'.handlers[i]))
      && HandlersDiffer(s'.handlers, s'.table)
      && (forall k :: 0 <= k < |s'.taken| ==> TakenOk(s'.processes, s'.table, s'.taken[k]))
  {
    NotBusy(s, p);
    hide Busy;
    hide WaiterOk;
    hide ExitOnItsWay;
  }

  lemma SpawnKeepsWaiters(s: System, p: Pid, why: Purpose)
    requires Inv(s) && !Alive(s, p) && !Busy(s, p)
    ensures var s' := Spawn(s, p, why);
      && (forall j :: 0 <= j < |s'.waiters| ==> WaiterOk(s'.processes, s'.latest, s'.table, s'.waiters[j]))
      && WaitersDiffer(s'.waiters)
  {
    NotBusy(s, p);
    hide Busy;
    hide HandlerOk;
    hide EntryOk;
    hide TakenOk;
    hide ExitOnItsWay;
  }

  lemma SpawnKeepsEntries(s: System, p: Pid, why: Purpose)
    requires Inv(s) && !Alive(s, p) && !Busy(s, p)
    ensures var s' := Spawn(s, p, why);
      && (forall q :: q in s'.latest ==> s'.latest[q] < |s'.processes|)
      && (forall q :: q in s'.table ==> EntryOk(s'.processes, s'.latest, s'.table, q))
      && (forall q :: q in s'.latest ==> ExitOnItsWay(s', q))
  {
    hide Handling;
    hide HandlerOk;
    hide WaiterOk;
    hide TakenOk;
    if why == RunHelper {
      assert NewWaiters(p, |s.processes|, why)[0].OnHelper(p);
    }
    AwaitedMore(s.waiters, NewWaiters(p, |s.processes|, why));
    hide HelperAwaited;
    hide NewWaiters;
  }

  lemma SpawnKeepsInv(s: System, p: Pid, why: Purpose)
    requires Inv(s) && !Alive(s, p) && !Busy(s, p)
    ensures Inv(Spawn(s, p, why))
  {
    SpawnKeepsHandlers(s, p, why);
    SpawnKeepsWaiters(s, p, why);
    SpawnKeepsEntries(s, p, why);
    hide HandlerOk;
    hide WaiterOk;
    hide TakenOk;
    hide EntryOk;
    hide ExitOnItsWay;
    hide HandlersDiffer;
    hide WaitersDiffer;
  }

  lemma OwnExitKeepsInv(s: System, p: Pid, c: Termination)
    requires Inv(s) && Alive(s, p)
    ensures Inv(Exit(s, p, c))
  {
    hide Handling;
    hide HelperAwaited;
    HandlingMore(s.handlers, Exit(s, p, c).handlers[|s.handlers|]);
  }

  lemma OrphanExitKeepsInv(s: System, p: Pid, c: Termination)
    requires Inv(s) && !Alive(s, p) && p !in s.table
    ensures Inv(Exit(s, p, c))
  {
    hide Handling;
    hide HelperAwaited;
    HandlingMore(s.handlers, Exit(s, p, c).handlers[|s.handlers|]);
  }

  lemma ExitKeepsInv(s: System, p: Pid, c: Termination)
    requires Inv(s) && (Alive(s, p) || p !in s.table)
    ensures Inv(Exit(s, p, c))
  {
    hide Inv;
    if Alive(s, p) {
      OwnExitKeepsInv(s, p, c);
    } else {
      OrphanExitKeepsInv(s, p, c);
    }
  }

  lemma HandlerKeepsInv(s: System, i: nat)
    requires Inv(s) && i < |s.handlers| && !s.handlers[i].Handled?
    ensures Inv(HandlerStep(s, i))
  {
    hide Handling;
    hide HelperAwaited;
    HandlingAfter(s.handlers, i, HandlerStep(s, i).handlers[i]);
    assert HandlerOk(s.processes, s.latest, s.table, s.handlers[i]);
  }

  lemma WaiterKeepsHandlers(s: System, j: nat, act: WaiterAct)
    requires Inv(s) && j < |s.waiters|
    ensures var s' := WaiterStep(s, j, act);
      && !s'.impossible
      && (forall i :: 0 <= i < |s'.handlers| ==> HandlerOk(s'.processes, s'.latest, s'.table, s'.handlers[i]))
      && HandlersDiffer(s'.handlers, s'.table)
  {
    assert WaiterOk(s.processes, s.latest, s.table, s.waiters[j]);
    hide TakenOk;
    hide ExitOnItsWay;
    hide WaitersDiffer;
    hide TakenDiffer;
  }

  lemma WaiterKeepsWaiters(s: System, j: nat, act: WaiterAct)
    requires Inv(s) && j < |s.waiters|
    ensures var s' := WaiterStep(s, j, act);
      && (forall k :: 0 <= k < |s'.waiters| ==> WaiterOk(s'.processes, s'.latest, s'.table, s'.waiters[k]))
      && WaitersDiffer(s'.waiters)
  {
    assert WaiterOk(s.processes, s.latest, s.table, s.waiters[j]);
    hide HandlerOk;
    hide TakenOk;
    hide ExitOnItsWay;
    hide HandlersDiffer;
    hide TakenDiffer;
  }

  lemma WaiterKeepsEntries(s: System, j: nat, act: WaiterAct)
    requires Inv(s) && j < |s.waiters|
    ensures var s' := WaiterStep(s, j, act);
      && (forall p :: p in s'.latest ==> s'.latest[p] < |s'.processes|)
      && (forall p :: p in s'.table ==> EntryOk(s'.processes, s'.latest, s'.table, p))
      && (forall k :: 0 <= k < |s'.taken| ==> TakenOk(s'.processes, s'.table, s'.taken[k]))
      && TakenDiffer(s'.taken)
      && (forall p :: p in s'.latest ==> ExitOnItsWay(s', p))
  {
    hide Handling;
    hide HelperAwaited;
    hide HandlerOk;
    hide HandlersDiffer;
    hide WaitersDiffer;
    AwaitedAfter(s.waiters, j, WaiterStep(s, j, act).waiters[j]);
    assert WaiterOk(s.processes, s.latest, s.table, s.waiters[j]);
  }

  lemma WaiterKeepsInv(s: System, j: nat, act: WaiterAct)
    requires Inv(s) && j < |s.waiters|
    ensures Inv(WaiterStep(s, j, act))
  {
    WaiterKeepsHandlers(s, j, act);
    WaiterKeepsWaiters(s, j, act);
    WaiterKeepsEntries(s, j, act);
    hide WaiterStep;
    hide HandlerOk;
    hide WaiterOk;
    hide TakenOk;
    hide EntryOk;
    hide ExitOnItsWay;
    hide HandlersDiffer;
    hide WaitersDiffer;
    hide TakenDiffer;
  }

  lemma NextKeepsInv(s: System, e: Event)
    requires Inv(s) && Possible(s, e) && Harmless(s, e)
    ensures Inv(Next(s, e))
  {
    match e {
      case Spawned(p, why) => SpawnKeepsInv(s, p, why);
      case Exited(p, c) => ExitKeepsInv(s, p, c);
      case HandlerRuns(i) => HandlerKeepsInv(s, i);
      case WaiterRuns(j, act) => WaiterKeepsInv(s, j, act);
    }
  }

  lemma {:induction false} RunKeepsInv(ss: seq<System>, events: seq<Event>, k: nat)
    requires IsRun(ss, events) && k <= |events|
    ensures Inv(ss[k])
  {
    if k > 0 {
      RunKeepsInv(ss, events, k - 1);
      hide Inv;
      hide Next;
      hide Possible;
      hide Harmless;
      var s, e := ss[k - 1], events[k - 1];
      assert Possible(s, e) && Harmless(s, e) && ss[k - 1 + 1] == Next(s, e);
      NextKeepsInv(s, e);
    }
  }

  // ---------- what holds in every interleaving ----------

  /** No branch is reached that the original marks as unreachable, and no exit is reported twice. */
  lemma NothingImpossible(ss: seq<System>, events: seq<Event>, k: nat)
    requires IsRun(ss, events) && k <= |events|
    ensures !ss[k].impossible
  {
    RunKeepsInv(ss, events, k);
  }

  /** The waiter has been handed the exit of some other process than the one it was waiting for. */
  predicate WrongExit(s: System, w: Waiter) {
    w.HasResult() && w.r.InTime? && !(w.born < |s.processes| && s.processes[w.born].exit == Some(w.r.code))
  }

  /** A waiter that returns in time returns the exit of its own process, whoever had or gets the same pid. */
  lemma OwnExit(ss: seq<System>, events: seq<Event>, k: nat, j: nat)
    requires IsRun(ss, events) && k <= |events| && j < |ss[k].waiters|
    ensures !WrongExit(ss[k], ss[k].waiters[j])
    ensures var w := ss[k].waiters[j]; w.born < |ss[k].processes| && ss[k].processes[w.born].pid == w.pid
  {
    RunKeepsInv(ss, events, k);
    assert WaiterOk(ss[k].processes, ss[k].latest, ss[k].table, ss[k].waiters[j]);
  }

  /** The exit of each process is taken at most once, with the right status, and is gone from the table afterwards. */
  lemma TakenOnce(ss: seq<System>, events: seq<Event>, k: nat)
    requires IsRun(ss, events) && k <= |events|
    ensures forall m, n :: 0 <= m < n < |ss[k].taken| ==> ss[k].taken[m].0 != ss[k].taken[n].0
    ensures forall m :: 0 <= m < |ss[k].taken| ==> TakenOk(ss[k].processes, ss[k].table, ss[k].taken[m])
    ensures forall p :: p in ss[k].table ==> EntryOk(ss[k].processes, ss[k].latest, ss[k].table, p)
  {
    RunKeepsInv(ss, events, k);
  }

  /** No exit gets lost: once the handler is through, the next look of whoever waits for the process finds the exit. */
  lemma NoLostExit(ss: seq<System>, events: seq<Event>, k: nat, j: nat)
    requires IsRun(ss, events) && k <= |events| && j < |ss[k].waiters|
    requires var w := ss[k].waiters[j];
      !w.HasResult() && w.born < |ss[k].processes| && ss[k].processes[w.born].exit.Some?
      && !Handling(ss[k].handlers, w.pid)
    ensures var w := ss[k].waiters[j]; var w' := WaiterStep(ss[k], j, Look).waiters[j];
      w'.HasResult() && w'.pid == w.pid && w'.born == w.born && w'.r == InTime(ss[k].processes[w.born].exit.value)
  {
    RunKeepsInv(ss, events, k);
    hide Handling;
    hide HelperAwaited;
    var s, w := ss[k], ss[k].waiters[j];
    assert WaiterOk(s.processes, s.latest, s.table, w);
    assert EntryOk(s.processes, s.latest, s.table, w.pid);
    assert ExitOnItsWay(s, w.pid);
  }

  /**
   * The event ends the wait of the waiter: its time is up, it sees that the service is ready, or it looks into the table
   * and finds that the process has exited.
   */
  predicate Ends(s: System, e: Event, j: nat, act: WaiterAct) {
    && e == WaiterRuns(j, act) && j < |s.waiters| && !s.waiters[j].HasResult()
    && (act == SeeReady ==> s.waiters[j].NotifyWait?)
    && (act == Look ==> s.waiters[j].pid in s.table && s.table[s.waiters[j].pid].Exited())
  }

  ghost predicate EndedBy(ss: seq<System>, events: seq<Event>, k: nat, j: nat, act: WaiterAct)
    requires k <= |ss| && k <= |events|
  {
    exists m :: 0 <= m < k && Ends(ss[m], events[m], j, act)
  }

  /** The waiter has a result, and it is the one for this way to end the wait. */
  predicate HasResultOf(s: System, j: nat, act: WaiterAct) {
    && j < |s.waiters| && s.waiters[j].HasResult()
    && match act
      case GiveUp => s.waiters[j].r.TimedOut?
      case SeeReady => s.waiters[j].r.SignaledReady?
      case Look => s.waiters[j].r.InTime?
  }

  lemma NextResult(s: System, e: Event, j: nat, act: WaiterAct)
    requires Inv(s) && Possible(s, e) && Harmless(s, e)
    ensures HasResultOf(Next(s, e), j, act) <==> HasResultOf(s, j, act) || Ends(s, e, j, act)
  {
    if j < |s.waiters| {
      assert WaiterOk(s.processes, s.latest, s.table, s.waiters[j]);
      assert s.waiters[j].pid in s.table ==> EntryOk(s.processes, s.latest, s.table, s.waiters[j].pid);
    }
    hide Inv;
  }

  lemma {:induction false} ResultAfter(ss: seq<System>, events: seq<Event>, k: nat, j: nat, act: WaiterAct)
    requires IsRun(ss, events) && k <= |events|
    ensures HasResultOf(ss[k], j, act) <==> EndedBy(ss, events, k, j, act)
  {
    if k > 0 {
      ResultAfter(ss, events, k - 1, j, act);
      RunKeepsInv(ss, events, k - 1);
      hide Inv;
      hide Next;
      hide Possible;
      hide Harmless;
      hide HasResultOf;
      hide Ends;
      var s, e := ss[k - 1], events[k - 1];
      assert Possible(s, e) && Harmless(s, e) && ss[k - 1 + 1] == Next(s, e);
      NextResult(s, e, j, act);
    }
  }

  /**
   * What a waiter returns tells how its wait ended: a timeout exactly if its time was up first, readiness exactly if it
   * waits for a notification and saw it first, and an exit exactly if it first found one in the table.
   */
  lemma ResultTellsEvent(ss: seq<System>, events: seq<Event>, k: nat, j: nat)
    requires IsRun(ss, events) && k <= |events| && j < |ss[k].waiters|
    ensures var w := ss[k].waiters[j];
      && (w.HasResult() && w.r == TimedOut <==> exists m :: 0 <= m < k && Ends(ss[m], events[m], j, GiveUp))
      && (w.HasResult() && w.r == SignaledReady <==> exists m :: 0 <= m < k && Ends(ss[m], events[m], j, SeeReady))
      && (w.HasResult() && w.r.InTime? <==> exists m :: 0 <= m < k && Ends(ss[m], events[m], j, Look))
  {
    ResultAfter(ss, events, k, j, GiveUp);
    ResultAfter(ss, events, k, j, SeeReady);
    ResultAfter(ss, events, k, j, Look);
    hide IsRun;
    hide Ends;
  }

  // ---------- who waits for whom ----------

  /** The waiter is the one that a spawn with this purpose leaves behind, whether it still waits or has returned. */
  predicate WaitsFor(w: Waiter, p: Pid, n: nat, why: Purpose) {
    && w.pid == p && w.born == n
    && match why
      case RunHelper => w.HelperWait? || w.HelperWaited? || w.Returned?
      case RunSimple => false
      case RunOneShot => w.OneShotWait? || w.Returned?
      case RunNotify => w.NotifyWait? || w.Returned?
  }

  lemma WaitersAfter(s: System, e: Event)
    requires Possible(s, e)
    ensures var s' := Next(s, e);
      && |s'.waiters| == |s.waiters| + (if e.Spawned? && e.why != RunSimple then 1 else 0)
      && (forall j, p, n, why :: 0 <= j < |s.waiters| && WaitsFor(s.waiters[j], p, n, why) ==> WaitsFor(s'.waiters[j], p, n, why))
      && (e.Spawned? && e.why != RunSimple ==> WaitsFor(s'.waiters[|s.waiters|], e.p, |s.processes|, e.why))
  {
  }

  /** The `j`-th waiter was left behind by the spawn at moment `m`. */
  ghost predicate LeftBy(ss: seq<System>, events: seq<Event>, m: nat, j: nat)
    requires m < |ss| && m < |events|
  {
    events[m].Spawned? && events[m].why != RunSimple && |ss[m].waiters| == j
  }

  /** Each spawn but that of a simple service leaves one waiter behind, which waits for that process in the way meant. */
  lemma {:induction false} SpawnedIsAwaited(ss: seq<System>, events: seq<Event>, k: nat, m: nat)
    requires IsRun(ss, events) && m < k <= |events| && LeftBy(ss, events, m, |ss[m].waiters|)
    ensures var j := |ss[m].waiters|;
      j < |ss[k].waiters| && WaitsFor(ss[k].waiters[j], events[m].p, |ss[m].processes|, events[m].why)
  {
    var s, e := ss[k - 1], events[k - 1];
    assert Possible(s, e) && ss[k - 1 + 1] == Next(s, e);
    WaitersAfter(s, e);
    if m < k - 1 {
      SpawnedIsAwaited(ss, events, k - 1, m);
    }
  }

  /** And nobody else waits: every waiter was left by a spawn. */
  lemma {:induction false} AwaitedWasSpawned(ss: seq<System>, events: seq<Event>, k: nat, j: nat)
    requires IsRun(ss, events) && k <= |events| && j < |ss[k].waiters|
    ensures exists m :: 0 <= m < k && LeftBy(ss, events, m, j)
  {
    if k > 0 {
      var s, e := ss[k - 1], events[k - 1];
      assert Possible(s, e) && ss[k - 1 + 1] == Next(s, e);
      WaitersAfter(s, e);
      if j < |s.waiters| {
        AwaitedWasSpawned(ss, events, k - 1, j);
      } else {
        assert LeftBy(ss, events, k - 1, j);
      }
    }
  }

  /** The exit that a waiter returns is recorded as taken. */
  ghost predicate ResultsTaken(s: System) {
    forall j :: 0 <= j < |s.waiters| && s.waiters[j].HasResult() && s.waiters[j].r.InTime? ==>
      (s.waiters[j].born, s.waiters[j].r.code) in s.taken
  }

  lemma NextTakes(s: System, e: Event)
    requires Inv(s) && Possible(s, e) && ResultsTaken(s)
    ensures ResultsTaken(Next(s, e))
  {
    if e.WaiterRuns? {
      assert WaiterOk(s.processes, s.latest, s.table, s.waiters[e.j]);
    }
  }

  /** Whoever returns an exit has taken it out of the table, where it is not found again (`TakenOnce`). */
  lemma {:induction false} ResultIsTaken(ss: seq<System>, events: seq<Event>, k: nat)
    requires IsRun(ss, events) && k <= |events|
    ensures ResultsTaken(ss[k])
  {
    if k > 0 {
      ResultIsTaken(ss, events, k - 1);
      RunKeepsInv(ss, events, k - 1);
      hide Inv;
      hide Next;
      hide Possible;
      hide Harmless;
      hide ResultsTaken;
      var s, e := ss[k - 1], events[k - 1];
      assert Possible(s, e) && ss[k - 1 + 1] == Next(s, e);
      NextTakes(s, e);
    }
  }

  /** Helpers leave nothing behind: once their waiters have returned, the table holds services only. */
  lemma HelpersLeaveNothing(ss: seq<System>, events: seq<Event>, k: nat, p: Pid)
    requires IsRun(ss, events) && k <= |events| && p in ss[k].table
    requires forall j :: 0 <= j < |ss[k].waiters| ==> ss[k].waiters[j].Returned?
    ensures ss[k].table[p].ForService()
  {
    RunKeepsInv(ss, events, k);
    assert EntryOk(ss[k].processes, ss[k].latest, ss[k].table, p);
    assert ExitOnItsWay(ss[k], p);
  }

  // ---------- any other reuse of a pid can go wrong ----------

  ghost predicate LeadsTo(s: System, events: seq<Event>, s': System)
    decreases |events|
  {
    if events == [] then s == s'
    else Possible(s, events[0]) && Harmless(s, events[0]) && LeadsTo(Next(s, events[0]), events[1..], s')
  }

  ghost predicate GoneWrong(s: System) {
    s.impossible || exists j :: 0 <= j < |s.waiters| && WrongExit(s, s.waiters[j])
  }

  /** Harmless events alone can lead from here to something wrong. */
  ghost predicate CanGoWrong(s: System) {
    exists events, s' :: LeadsTo(s, events, s') && GoneWrong(s')
  }

  lemma WrongNow(s: System)
    requires GoneWrong(s)
    ensures CanGoWrong(s)
  {
    var none: seq<Event> := [];
    assert LeadsTo(s, none, s);
  }

  lemma WrongLater(s: System, e: Event)
    requires Possible(s, e) && Harmless(s, e) && CanGoWrong(Next(s, e))
    ensures CanGoWrong(s)
  {
    hide GoneWrong;
    var events, s' :| LeadsTo(Next(s, e), events, s') && GoneWrong(s');
    assert ([e] + events)[1..] == events;
    assert LeadsTo(s, [e] + events, s');
  }

  /** The handler writes the exit of its process over the entry of the new helper, whose waiter takes it for its own. */
  lemma ReuseWhileCollecting(s: System, p: Pid, i: nat)
    requires Inv(s) && !Alive(s, p) && i < |s.handlers| && s.handlers[i].Collect? && s.handlers[i].pid == p
    ensures CanGoWrong(Spawn(s, p, RunHelper))
  {
    var s1 := Spawn(s, p, RunHelper);
    var s2 := HandlerStep(s1, i);
    var j := |s.waiters|;
    var s3 := WaiterStep(s2, j, Look);
    assert WrongExit(s3, s3.waiters[j]);
    hide Inv;
    WrongNow(s3);
    WrongLater(s2, WaiterRuns(j, Look));
    WrongLater(s1, HandlerRuns(i));
  }

  /** The handler finds the entry of a helper where it expects its service. */
  lemma ReuseWhileSaving(s: System, p: Pid, i: nat)
    requires i < |s.handlers| && s.handlers[i].SaveService? && s.handlers[i].pid == p
    ensures CanGoWrong(Spawn(s, p, RunHelper))
  {
    var s1 := Spawn(s, p, RunHelper);
    WrongNow(HandlerStep(s1, i));
    WrongLater(s1, HandlerRuns(i));
  }

  /** The waiter finds an entry of the other kind. */
  lemma ReuseWhileWaiting(s: System, p: Pid, j: nat)
    requires j < |s.waiters| && s.waiters[j].pid == p
    ensures s.waiters[j].HelperWait? ==> CanGoWrong(Spawn(s, p, RunSimple))
    ensures s.waiters[j].OneShotWait? ==> CanGoWrong(Spawn(s, p, RunHelper))
  {
    if s.waiters[j].HelperWait? {
      var s1 := Spawn(s, p, RunSimple);
      WrongNow(WaiterStep(s1, j, Look));
      WrongLater(s1, WaiterRuns(j, Look));
    }
    if s.waiters[j].OneShotWait? {
      var s1 := Spawn(s, p, RunHelper);
      WrongNow(WaiterStep(s1, j, Look));
      WrongLater(s1, WaiterRuns(j, Look));
    }
  }

  /** The cleanup after the first helper removes the entry of the second one. */
  lemma ReuseBeforeCleanup(s: System, p: Pid, j: nat)
    requires j < |s.waiters| && s.waiters[j].HelperWaited? && s.waiters[j].pid == p
    ensures CanGoWrong(Spawn(s, p, RunHelper))
  {
    var s1 := Spawn(s, p, RunHelper);
    var s2 := WaiterStep(s1, j, Look);
    var n := |s.waiters|;
    assert s2.waiters[n] == HelperWait(p, |s.processes|) && p !in s2.table;
    WrongNow(WaiterStep(s2, n, Look));
    WrongLater(s2, WaiterRuns(n, Look));
    WrongLater(s1, WaiterRuns(j, Look));
  }

  /** The wait for the notification of a service that has exited takes the exit of its successor for that of its own. */
  lemma ReuseWhileNotifying(s: System, p: Pid, j: nat)
    requires Inv(s) && j < |s.waiters| && s.waiters[j].NotifyWait? && s.waiters[j].pid == p
    ensures CanGoWrong(Spawn(s, p, RunSimple))
  {
    var w := s.waiters[j];
    assert WaiterOk(s.processes, s.latest, s.table, w);
    hide Inv;
    var c := if s.processes[w.born].exit.Some? then s.processes[w.born].exit.value + 1 else 0;
    var n := |s.handlers|;
    var s1 := Spawn(s, p, RunSimple);
    var s2 := Exit(s1, p, c);
    var s3 := HandlerStep(s2, n);
    var s4 := HandlerStep(s3, n);
    var s5 := WaiterStep(s4, j, Look);
    assert s4.table[p] == ServiceExited(|s.processes|, c);
    assert s5.waiters[j] == Returned(p, w.born, InTime(c)) && WrongExit(s5, s5.waiters[j]);
    WrongNow(s5);
    WrongLater(s4, WaiterRuns(j, Look));
    WrongLater(s3, HandlerRuns(n));
    WrongLater(s2, HandlerRuns(n));
    WrongLater(s1, Exited(p, c));
  }

  /** Whenever a busy pid is given out again, for some process to run under it, things can go wrong. */
  lemma BusyPidIsFatal(s: System, p: Pid)
    requires Inv(s) && !Alive(s, p) && Busy(s, p)
    ensures exists why :: CanGoWrong(Spawn(s, p, why))
  {
    hide CanGoWrong;
    if Handling(s.handlers, p) {
      var i :| 0 <= i < |s.handlers| && s.handlers[i].ActiveFor(p);
      match s.handlers[i] {
        case Collect(_, _, _) => ReuseWhileCollecting(s, p, i);
        case SaveService(_, _, _) => ReuseWhileSaving(s, p, i);
      }
    } else {
      var j :| 0 <= j < |s.waiters| && s.waiters[j].ActiveFor(p);
      if s.waiters[j].HelperWaited? {
        ReuseBeforeCleanup(s, p, j);
      } else if s.waiters[j].NotifyWait? {
        ReuseWhileNotifying(s, p, j);
      } else {
        ReuseWhileWaiting(s, p, j);
      }
    }
  }

  lemma EntryIsAwaited(s: System, p: Pid)
    requires Inv(s) && !Alive(s, p) && p in s.table
    ensures s.table[p].Exited() || Handling(s.handlers, p)
  {
    assert EntryOk(s.processes, s.latest, s.table, p);
    assert ExitOnItsWay(s, p);
  }

  /** And whenever an orphan exits with a pid that has an entry. */
  lemma ListedOrphanIsFatal(s: System, p: Pid, c: Termination)
    requires Inv(s) && !Alive(s, p) && p in s.table
    ensures CanGoWrong(Exit(s, p, c))
  {
    EntryIsAwaited(s, p);
    var n := |s.handlers|;
    var s1 := Exit(s, p, c);
    if s.table[p].Exited() {
      hide Inv;
      WrongNow(HandlerStep(s1, n));
      WrongLater(s1, HandlerRuns(n));
    } else {
      var i :| 0 <= i < |s.handlers| && s.handlers[i].ActiveFor(p);
      OrphanFirst(s, p, c, i);
    }
  }

  /** The orphan's handler saves the orphan's exit; then the handler of the real process finds an exit saved already. */
  lemma OrphanFirst(s: System, p: Pid, c: Termination, i: nat)
    requires Inv(s) && !Alive(s, p) && p in s.table && !s.table[p].Exited()
    requires i < |s.handlers| && s.handlers[i].ActiveFor(p)
    ensures CanGoWrong(Exit(s, p, c))
  {
    assert HandlerOk(s.processes, s.latest, s.table, s.handlers[i]) && EntryOk(s.processes, s.latest, s.table, p);
    hide Inv;
    var n := |s.handlers|;
    var s1 := Exit(s, p, c);
    var s2 := HandlerStep(s1, n);
    var s3 := if s.table[p].Helper? then s2 else HandlerStep(s2, n);
    assert s3.table[p].Exited() && s3.handlers[i] == s.handlers[i];
    var s4 := HandlerStep(s3, i);
    assert s4.impossible;
    WrongNow(s4);
    WrongLater(s3, HandlerRuns(i));
    if s.table[p].Service? {
      WrongLater(s2, HandlerRuns(n));
    }
    WrongLater(s1, HandlerRuns(n));
  }

  lemma InvIsRight(s: System)
    requires Inv(s)
    ensures !GoneWrong(s)
  {
    forall j | 0 <= j < |s.waiters| ensures !WrongExit(s, s.waiters[j]) {
      assert WaiterOk(s.processes, s.latest, s.table, s.waiters[j]);
    }
  }

  lemma {:induction false} StaysRight(s: System, events: seq<Event>, s': System)
    requires Inv(s) && LeadsTo(s, events, s')
    ensures !GoneWrong(s')
    decreases |events|
  {
    if events == [] {
      InvIsRight(s);
    } else {
      hide Inv;
      hide Next;
      NextKeepsInv(s, events[0]);
      StaysRight(Next(s, events[0]), events[1..], s');
    }
  }

  lemma CannotGoWrong(s: System)
    requires Inv(s)
    ensures !CanGoWrong(s)
  {
    hide Inv;
    hide GoneWrong;
    forall events, s' | LeadsTo(s, events, s') ensures !GoneWrong(s') {
      StaysRight(s, events, s');
    }
  }

  /**
   * The exact condition for giving a pid out again, in any state that a run leads to, once the process that had it is
   * gone: nothing can go wrong afterwards, for any kind of process, if and only if the pid is not busy.
   */
  lemma SafeReuse(ss: seq<System>, events: seq<Event>, k: nat, p: Pid)
    requires IsRun(ss, events) && k <= |events| && !Alive(ss[k], p)
    ensures !Busy(ss[k], p) <==> forall why :: !CanGoWrong(Spawn(ss[k], p, why))
  {
    RunKeepsInv(ss, events, k);
    hide Inv;
    hide CanGoWrong;
    if Busy(ss[k], p) {
      BusyPidIsFatal(ss[k], p);
    } else {
      forall why ensures !CanGoWrong(Spawn(ss[k], p, why)) {
        SpawnKeepsInv(ss[k], p, why);
        CannotGoWrong(Spawn(ss[k], p, why));
      }
    }
  }

  /** And for an orphan that exits: nothing can go wrong if and only if its pid has no entry. */
  lemma SafeOrphan(ss: seq<System>, events: seq<Event>, k: nat, p: Pid, c: Termination)
    requires IsRun(ss, events) && k <= |events| && !Alive(ss[k], p)
    ensures p !in ss[k].table <==> !CanGoWrong(Exit(ss[k], p, c))
  {
    RunKeepsInv(ss, events, k);
    hide Inv;
    hide CanGoWrong;
    if p in ss[k].table {
      ListedOrphanIsFatal(ss[k], p, c);
    } else {
      ExitKeepsInv(ss[k], p, c);
      CannotGoWrong(Exit(ss[k], p, c));
    }
  }

  predicate Fatal(s: System, i: nat) {
    i < |s.handlers| && !s.handlers[i].Handled? && HandlerStep(s, i).impossible
  }

  /**
   * Such a state is soon reached: the handler of a service that has exited is between its two critical sections, and if
   * its pid is given to a helper now, the handler finds the helper's entry where it expects the service.
   */
  lemma ReusedPidIsFatal(p: Pid, c: Termination)
    ensures var exiting := [Spawned(p, RunSimple), Exited(p, c), HandlerRuns(0)];
      exists ss :: IsRun(ss, exiting) && !Alive(ss[3], p) && Busy(ss[3], p) && Fatal(Spawn(ss[3], p, RunHelper), 0)
  {
    var exiting := [Spawned(p, RunSimple), Exited(p, c), HandlerRuns(0)];
    var s1 := Next(START, exiting[0]);
    var s2 := Next(s1, exiting[1]);
    var s3 := Next(s2, exiting[2]);
    assert s3.handlers == [SaveService(p, 0, c)];
    assert s3.handlers[0].ActiveFor(p) && Fatal(Spawn(s3, p, RunHelper), 0);
    assert IsRun([START, s1, s2, s3], exiting);
  }
}
