/** Whole operations on the running system: start, stop, restart, recursive stop and shutdown. */
module RuntimeInfo {
  import opened Wrappers

  import opened Units
  import opened Digraph
  import opened UnitStatus
  import opened Services

  /** What the environment makes of one operation on one unit. */
  datatype Env = Env(start: StartEnv, stop: StopEnv, opens: bool, fds: seq<int>, closeFailsAt: nat)

  class RuntimeInfo {
    const table: UnitTable
    /** Services with inetd style activation, which is not supported. */
    const accepts: set<UnitId>
    /** Oneshot and notify services. */
    const waitsOnPid: set<UnitId>
    const socketConfs: map<UnitId, SocketConf>
    const services: map<UnitId, Service>
    const store: FdStore
    var status: StatusMap
    /** Sockets that are not listened to, because they have woken a service. */
    var activated: set<UnitId>
    /** Services whose last start succeeded without a process. */
    ghost var unforked: set<UnitId>

    /** The objects behind the units. */
    ghost function Parts(): set<object> {
      {store} + set id | id in services :: services[id]
    }

    /** The fixed part: the table is in order and every service has a state object of its own. */
    ghost predicate Fixed() {
      && WellKeyed(table) && Closed(table) && Mirrored(table) && NoSelfOrder(table) && NamesUnique(table.Keys)
      && (forall id :: id in services <==> id in table && id.kind == Service)
      && (forall id :: id in socketConfs <==> id in table && id.kind == Socket)
      && (forall a, b :: a in services && b in services && a != b ==> services[a] != services[b])
    }

    /**
     * What the unit holds agrees with a status: a service has a process exactly while it is Started(Running), unless the
     * fork failed, and a socket unit has an entry in the store exactly while it is started, with one descriptor per
     * configured socket.
     */
    ghost predicate Agrees(id: UnitId, s: Status)
      reads this`unforked, Parts()
    {
      && (id.kind != Service ==> s != Started(WaitingForSocket))
      && (id in services ==>
           && services[id].Consistent()
           && (services[id].pid.Some? ==> s == Started(Running))
           && (s == Started(Running) ==> services[id].pid.Some? != (id in unforked)))
      && (id in socketConfs ==>
           && (id.name in store.globalSockets <==> s.Started?)
           && (id.name in store.globalSockets ==> |store.globalSockets[id.name]| == socketConfs[id].count))
    }

    /** What a start that went through to the end has acquired: the pid of the fork, or the opened descriptors. */
    ghost predicate Acquired(id: UnitId, env: Env)
      requires EnvFits(id, env)
      reads Parts()
    {
      && (id in services && env.start.forked ==> services[id].pid == Some(env.start.pid))
      && (id in socketConfs ==>
           id.name in store.globalSockets && store.globalSockets[id.name] == EntryOf(socketConfs[id], id, env.fds))
    }

    /** What the other units hold has not been touched. */
    twostate predicate OthersUntouched(id: UnitId)
      reads Parts()
    {
      && (forall x :: x in services && x != id ==> unchanged(services[x]))
      && store.globalSockets - {id.name} == old(store.globalSockets) - {id.name}
    }

    ghost predicate OthersAgree(id: UnitId)
      requires status.Keys == table.Keys
      reads this, Parts()
    {
      forall x :: x in table && x != id ==> Agrees(x, status[x])
    }

    ghost predicate Valid()
      reads this, Parts()
    {
      Fixed() && status.Keys == table.Keys && forall id :: id in table ==> Agrees(id, status[id])
    }

    constructor (table: UnitTable, accepts: set<UnitId>, waitsOnPid: set<UnitId>, socketConfs: map<UnitId, SocketConf>,
        services: map<UnitId, Service>, store: FdStore)
      requires WellKeyed(table) && Closed(table) && Mirrored(table) && NoSelfOrder(table) && NamesUnique(table.Keys)
      requires forall id :: id in services <==> id in table && id.kind == Service
      requires forall id :: id in socketConfs <==> id in table && id.kind == Socket
      requires forall a, b :: a in services && b in services && a != b ==> services[a] != services[b]
      requires forall id :: id in services ==> services[id].pid == None && services[id].processGroup == None
      requires store.globalSockets == map[]
      ensures Valid() && this.table == table && activated == {} && unforked == {} && forall id :: id in table ==> status[id] == NeverStarted
    {
      this.table, this.accepts, this.waitsOnPid := table, accepts, waitsOnPid;
      this.socketConfs, this.services, this.store := socketConfs, services, store;
      activated, unforked := {}, {};
      status := map id | id in table :: NeverStarted;
      new;
      hide Agrees;
      NothingHeld();
      hide WellKeyed;
      hide Closed;
      hide Mirrored;
      hide NoSelfOrder;
      hide NamesUnique;
    }

    lemma NothingHeld()
      requires forall id :: id in services ==> services[id].pid == None && services[id].processGroup == None
      requires store.globalSockets == map[]
      ensures forall id :: Agrees(id, NeverStarted)
    {
    }

    // ---------- what an operation on the unit itself comes to ----------

    function ConfOf(id: UnitId): ServiceConf
      requires id in table
    {
      ServiceConf(id in accepts, SocketsOf(id) != [], id in waitsOnPid)
    }

    function SocketsOf(id: UnitId): seq<UnitId>
      requires id in table
    {
      if table[id].specific.ServiceSpecific? then table[id].specific.sockets else []
    }

    /** If the service has been left to wait, its sockets are listened to again; otherwise nothing changes. */
    ghost predicate ListenedToAgain(id: UnitId, waits: bool, before: set<UnitId>, after: set<UnitId>)
      requires id in table
    {
      forall k :: k in after <==> (k in before && !(waits && k in SocketsOf(id) && k in table && k.kind == Socket))
    }

    lemma NotListening(id: UnitId)
      requires id in table
      ensures ListenedToAgain(id, false, activated, activated)
    {
    }

    function StartOutcomeOf(id: UnitId, source: Source, env: Env): StartOutcome
      requires id in table
    {
      match id.kind
      case Target => DidStart(Running)
      case Socket => if env.opens then DidStart(Running) else StartFailure(SocketOpenError)
      case Service =>
        if id in accepts then StartFailure(ServiceStartError(InetdNotSupported))
        else if WaitsForSocket(ConfOf(id), source) then DidStart(WaitingForSocket)
        else match StartError(env.start)
          case None => DidStart(Running)
          case Some(e) => StartFailure(ServiceStartError(e))
    }

    function StopOutcomeOf(id: UnitId, open: bool, env: Env): StopOutcome
      requires id in socketConfs || id.kind != Socket
    {
      match id.kind
      case Target => DidStop
      case Socket => if open && env.closeFailsAt < socketConfs[id].count then StopFailure(SocketCloseError) else DidStop
      case Service =>
        match KillError(env.stop)
          case None => DidStop
          case Some(e) => StopFailure(ServiceStopError(e))
    }

    /** Opening yields a descriptor per socket, and no start waits for the pid of a process that was not forked. */
    ghost predicate EnvFits(id: UnitId, env: Env) {
      && (id in socketConfs ==> |env.fds| == socketConfs[id].count)
      && (id in waitsOnPid ==> env.start.forked)
    }

    /** Start what the unit stands for. It holds nothing yet, so neither the pid nor the store is in the way. */
    method StartSelf(id: UnitId, source: Source, env: Env) returns (o: StartOutcome)
      requires Fixed() && status.Keys == table.Keys && OthersAgree(id) && Agrees(id, NeverStarted)
      requires id in table && EnvFits(id, env)
      modifies this`activated, this`unforked, Parts()
      ensures OthersAgree(id) && OthersUntouched(id) && Agrees(id, AfterStart(o).0)
      ensures o == DidStart(Running) ==> Acquired(id, env)
      ensures o == StartOutcomeOf(id, source, env)
      ensures ListenedToAgain(id, o == DidStart(WaitingForSocket), old(activated), activated)
      ensures env.start.forked ==> unforked <= old(unforked)
    {
      match id.kind {
        case Target => o := DidStart(Running);
        case Socket => o := OpenSockets(id, env);
        case Service => o := StartService(id, source, env);
      }
    }

    method OpenSockets(id: UnitId, env: Env) returns (o: StartOutcome)
      requires Fixed() && status.Keys == table.Keys && OthersAgree(id) && Agrees(id, NeverStarted)
      requires id in table && id.kind == Socket && EnvFits(id, env)
      modifies store
      ensures OthersAgree(id) && OthersUntouched(id) && Agrees(id, AfterStart(o).0)
      ensures o == DidStart(Running) ==> Acquired(id, env)
      ensures o == if env.opens then DidStart(Running) else StartFailure(SocketOpenError)
    {
      hide WellKeyed;
      hide Closed;
      hide Mirrored;
      hide NoSelfOrder;
      var ok, rejected := OpenAll(socketConfs[id], id, env.fds, env.opens, store);
      assert rejected.None?;
      o := if ok then DidStart(Running) else StartFailure(SocketOpenError);
    }

    method StartService(id: UnitId, source: Source, env: Env) returns (o: StartOutcome)
      requires Fixed() && status.Keys == table.Keys && OthersAgree(id) && Agrees(id, NeverStarted)
      requires id in table && id.kind == Service && EnvFits(id, env)
      modifies this`activated, this`unforked, services[id]
      ensures OthersAgree(id) && OthersUntouched(id) && Agrees(id, AfterStart(o).0)
      ensures o == DidStart(Running) ==> Acquired(id, env)
      ensures o == StartOutcomeOf(id, source, env)
      ensures ListenedToAgain(id, o == DidStart(WaitingForSocket), old(activated), activated)
      ensures env.start.forked ==> unforked <= old(unforked)
    {
      hide WellKeyed;
      hide Closed;
      hide Mirrored;
      hide NoSelfOrder;
      hide NamesUnique;
      var res := services[id].Start(ConfOf(id), source, env.start);
      unforked := if res == ServiceStarted && !env.start.forked then unforked + {id} else unforked - {id};
      match res {
        case ServiceStarted => o := DidStart(Running);
        case ServiceWaits =>
          o := DidStart(WaitingForSocket);
          ListenAgain(SocketsOf(id));
        case ServiceStartFailed(e) => o := StartFailure(ServiceStartError(e));
      }
    }

    /** The listed sockets that are known are listened to again. */
    method ListenAgain(sockets: seq<UnitId>)
      modifies this`activated
      ensures activated == old(activated) - (set k | k in sockets && k in table && k.kind == Socket)
    {
      for i := 0 to |sockets|
        invariant activated == old(activated) - (set k | k in sockets[..i] && k in table && k.kind == Socket)
      {
        if sockets[i] in table && sockets[i].kind == Socket {
          activated := activated - {sockets[i]};
        }
      }
      assert sockets[..|sockets|] == sockets;
    }

    /** Stop what the unit stands for. Afterwards it holds nothing, whatever failed. */
    method StopSelf(id: UnitId, env: Env, ghost s: Status) returns (o: StopOutcome)
      requires Fixed() && status.Keys == table.Keys && OthersAgree(id) && Agrees(id, s)
      requires id in table
      modifies Parts()
      ensures OthersAgree(id) && OthersUntouched(id) && Agrees(id, NeverStarted)
      ensures o == StopOutcomeOf(id, s.Started?, env)
    {
      match id.kind {
        case Target => o := DidStop;
        case Socket => o := CloseSockets(id, env, s);
        case Service => o := KillService(id, env);
      }
    }

    method CloseSockets(id: UnitId, env: Env, ghost s: Status) returns (o: StopOutcome)
      requires Fixed() && status.Keys == table.Keys && OthersAgree(id) && Agrees(id, s)
      requires id in table && id.kind == Socket
      modifies store
      ensures OthersAgree(id) && OthersUntouched(id) && Agrees(id, NeverStarted)
      ensures o == StopOutcomeOf(id, s.Started?, env)
    {
      hide WellKeyed;
      hide Closed;
      hide Mirrored;
      hide NoSelfOrder;
      var ok := CloseAll(socketConfs[id], id.name, env.closeFailsAt, store);
      o := if ok then DidStop else StopFailure(SocketCloseError);
    }

    method KillService(id: UnitId, env: Env) returns (o: StopOutcome)
      requires Fixed() && status.Keys == table.Keys && OthersAgree(id)
      requires id in table && id.kind == Service
      modifies services[id]
      ensures OthersAgree(id) && OthersUntouched(id) && Agrees(id, NeverStarted)
      ensures o == StopOutcomeOf(id, false, env)
    {
      hide WellKeyed;
      hide Closed;
      hide Mirrored;
      hide NoSelfOrder;
      hide NamesUnique;
      var res := services[id].Kill(env.stop);
      match res {
        case Killed => o := DidStop;
        case KillFailed(e) => o := StopFailure(ServiceStopError(e));
      }
    }

    // ---------- the operations ----------

    lemma Known(id: UnitId)
      requires Fixed() && status.Keys == table.Keys && id in table
      ensures table[id].id == id && id in status && (id in socketConfs <==> id.kind == Socket)
      ensures forall a :: a in table[id].deps.after ==> a in status
      ensures forall a :: a in table[id].deps.before ==> a in status
      ensures forall a :: a in table[id].deps.requiredBy ==> a in status
    {
      CoversDeps(table, status, id);
    }

    /** What an operation does to requires-consistency. */
    lemma StartConsistent(id: UnitId, source: Source, start: StartOutcome)
      requires Fixed() && status.Keys == table.Keys && RequiresConsistent(table, status) && DepsIn(table, status, id)
      ensures var s := ActivateStatus(table[id], status, source, start).0;
        RequiresConsistent(table, status[id := s]) <==> SafeStart(table, status, id, source) || start.DidStart?
      ensures source == Regular ==> SafeStart(table, status, id, source)
    {
      hide RequiresConsistent;
      hide NamesUnique;
      hide UnreadyDeps;
      StartOutcomeMatters(table, status, id, source, start);
    }

    lemma StartTells(id: UnitId, source: Source, start: StartOutcome)
      requires DepsIn(table, status, id) && (start.StartFailure? ==> !start.e.DependencyError?)
      ensures var (s, r) := ActivateStatus(table[id], status, source, start);
        if LeftAlone(status[id], source) then s == status[id] && r == Ok else Attempt(table[id], status, s, r)
    {
      ActivateResult(table[id], status, source, start);
    }

    lemma RestartTells(id: UnitId, stop: StopOutcome, start: StartOutcome)
      requires DepsIn(table, status, id)
      requires (start.StartFailure? ==> !start.e.DependencyError?) && (stop.StopFailure? ==> !stop.e.DependencyError?)
      ensures var (s, r) := ReactivateStatus(table[id], status, stop, start); Attempt(table[id], status, s, r)
    {
      ReactivateResult(table[id], status, stop, start);
    }

    lemma RestartConsistent(id: UnitId, stop: StopOutcome, start: StartOutcome)
      requires Fixed() && status.Keys == table.Keys && RequiresConsistent(table, status) && DepsIn(table, status, id)
      ensures var s := ReactivateStatus(table[id], status, stop, start).0;
        RequiresConsistent(table, status[id := s]) <==> SafeRestart(table, status, id) || (stop.DidStop? && start.DidStart?)
    {
      hide RequiresConsistent;
      hide SafeRestart;
      hide NamesUnique;
      RestartOutcome(table, status, id, stop, start);
    }

    lemma StopConsistent(id: UnitId, stop: StopOutcome)
      requires Fixed() && status.Keys == table.Keys && id in table && RequiresConsistent(table, status)
      requires id in status && (forall a :: a in table[id].deps.requiredBy ==> a in status) && table[id].id == id
      ensures RequiresConsistent(table, status[id := DeactivateStatus(table[id], status, stop).0])
    {
      hide RequiresConsistent;
      hide NamesUnique;
      DeactivateKeepsConsistency(table, status, id, stop);
    }

    /** A unit that is not started, or a service that waits for its socket, holds nothing. */
    lemma Idle(id: UnitId, s: Status)
      requires Fixed() && id in table && Agrees(id, s)
      ensures !s.Started? || s == Started(WaitingForSocket) ==> Agrees(id, NeverStarted)
    {
    }

    lemma OutcomesFit(id: UnitId, source: Source, env: Env)
      requires id in table && (id in socketConfs || id.kind != Socket)
      ensures StartOutcomeOf(id, source, env) != StartFailure(ServiceStartError(AlreadyHasPid))
      ensures forall open :: StopOutcomeOf(id, open, env) != StopFailure(ServiceStartError(AlreadyHasPid))
      ensures var o := StartOutcomeOf(id, source, env);
        (o.StartFailure? ==> !o.e.DependencyError?) && (o == DidStart(WaitingForSocket) ==> source == Regular)
      ensures forall open :: var o := StopOutcomeOf(id, open, env); o.StopFailure? ==> !o.e.DependencyError?
    {
    }

    lemma HoldsNothing(id: UnitId, s: Status)
      requires Agrees(id, NeverStarted) && !s.Started?
      ensures Agrees(id, s)
    {
    }

    /** The result is a dependency error, or what starting the unit itself came to: never that it has a pid already. */
    method Activate(id: UnitId, source: Source, env: Env) returns (r: OpResult)
      requires Valid() && id in table && EnvFits(id, env)
      modifies this`status, this`activated, this`unforked, Parts()
      ensures Valid() && OthersUntouched(id)
      ensures status != old(status) && status[id] == Started(Running) ==> Acquired(id, env)
      ensures (forall a :: a in table[id].deps.after ==> a in old(status)) && id in old(status) && table[id].id == id
      ensures var o := ActivateStatus(table[id], old(status), source, StartOutcomeOf(id, source, env));
        status == old(status)[id := o.0] && r == o.1
      ensures r != Err(ServiceStartError(AlreadyHasPid))
      ensures env.start.forked ==> unforked <= old(unforked)
      ensures if LeftAlone(old(status)[id], source) then status == old(status) && r == Ok
        else Attempt(table[id], old(status), status[id], r)
      ensures ListenedToAgain(id, status[id] == Started(WaitingForSocket) && status != old(status), old(activated), activated)
      ensures DepsIn(table, old(status), id) && (old(RequiresConsistent(table, status)) ==>
        (RequiresConsistent(table, status) <==>
         SafeStart(table, old(status), id, source) || StartOutcomeOf(id, source, env).DidStart?))
      ensures source == Regular && old(RequiresConsistent(table, status)) ==> RequiresConsistent(table, status)
    {
      hide Fixed;
      hide Agrees;
      hide RequiresConsistent;
      hide UnreadyDeps;
      hide StartOutcomeOf;
      hide SafeStart;
      hide EnvFits;
      hide Acquired;
      hide Attempt;
      hide LeftAlone;
      hide ListenedToAgain;
      NotListening(id);
      Known(id);
      OutcomesFit(id, source, env);
      Idle(id, status[id]);
      ghost var before := status;
      if RequiresConsistent(table, before) {
        StartConsistent(id, source, StartOutcomeOf(id, source, env));
      }
      StartTells(id, source, StartOutcomeOf(id, source, env));
      if !NeedsActivation(status[id], source) {
        return Ok;
      }
      var unready := UnreadyDeps(table[id], status);
      if unready != {} {
        return Err(DependencyError(unready));
      }
      r := StartMarked(id, source, env);
    }

    /** Behind the guard: the unit is marked while it is being started. */
    method StartMarked(id: UnitId, source: Source, env: Env) returns (r: OpResult)
      requires Valid() && id in table && Agrees(id, NeverStarted) && EnvFits(id, env)
      modifies this`status, this`activated, this`unforked, Parts()
      ensures Valid() && OthersUntouched(id)
      ensures var o := AfterStart(StartOutcomeOf(id, source, env)); status == old(status)[id := o.0] && r == o.1
      ensures status[id] == Started(Running) ==> Acquired(id, env)
      ensures env.start.forked ==> unforked <= old(unforked)
      ensures ListenedToAgain(id, status[id] == Started(WaitingForSocket), old(activated), activated)
    {
      hide Fixed;
      hide Agrees;
      hide StartOutcomeOf;
      hide ListenedToAgain;
      hide Acquired;
      hide EnvFits;
      ghost var before := status;
      status := status[id := Starting];
      var o := StartSelf(id, source, env);
      status, r := status[id := AfterStart(o).0], AfterStart(o).1;
      assert status == before[id := AfterStart(o).0];
    }

    method Deactivate(id: UnitId, env: Env) returns (r: OpResult)
      requires Valid() && id in table
      modifies this`status, Parts()
      ensures Valid() && OthersUntouched(id)
      ensures (forall a :: a in table[id].deps.requiredBy ==> a in old(status)) && id in old(status) && table[id].id == id
      ensures var o := StopOutcomeOf(id, old(status)[id].Started?, env);
        && status == old(status)[id := DeactivateStatus(table[id], old(status), o).0]
        && r == DeactivateStatus(table[id], old(status), o).1
      ensures old(RequiresConsistent(table, status)) ==> RequiresConsistent(table, status)
    {
      hide Fixed;
      hide Agrees;
      hide RequiresConsistent;
      hide UnkilledDependents;
      hide StopOutcomeOf;
      Known(id);
      ghost var before := status;
      if RequiresConsistent(table, before) {
        StopConsistent(id, StopOutcomeOf(id, before[id].Started?, env));
      }
      if status[id].Stopped? {
        return Ok;
      }
      var unkilled := UnkilledDependents(table[id], status);
      if unkilled != {} {
        return Err(DependencyError(unkilled));
      }
      status := status[id := Stopping];
      var o := StopSelf(id, env, before[id]);
      HoldsNothing(id, AfterStop(o).0);
      status, r := status[id := AfterStop(o).0], AfterStop(o).1;
    }

    method Reactivate(id: UnitId, source: Source, env: Env) returns (r: OpResult)
      requires Valid() && id in table && EnvFits(id, env)
      modifies this`status, this`activated, this`unforked, Parts()
      ensures Valid() && OthersUntouched(id)
      ensures r == Ok && status[id] == Started(Running) ==> Acquired(id, env)
      ensures (forall a :: a in table[id].deps.after ==> a in old(status)) && id in old(status) && table[id].id == id
      ensures var o := ReactivateStatus(table[id], old(status),
          StopOutcomeOf(id, old(status)[id].Started?, env), StartOutcomeOf(id, source, env));
        status == old(status)[id := o.0] && r == o.1
      ensures r != Err(ServiceStartError(AlreadyHasPid))
      ensures env.start.forked ==> unforked <= old(unforked)
      ensures Attempt(table[id], old(status), status[id], r)
      ensures ListenedToAgain(id, status[id] == Started(WaitingForSocket) && r == Ok, old(activated), activated)
      ensures DepsIn(table, old(status), id) && (old(RequiresConsistent(table, status)) ==>
        (RequiresConsistent(table, status) <==> (
          || SafeRestart(table, old(status), id)
          || (StopOutcomeOf(id, old(status)[id].Started?, env).DidStop? && StartOutcomeOf(id, source, env).DidStart?))))
    {
      hide Fixed;
      hide Agrees;
      hide RequiresConsistent;
      hide UnreadyDeps;
      hide StartOutcomeOf;
      hide StopOutcomeOf;
      hide SafeRestart;
      hide EnvFits;
      hide Acquired;
      hide ListenedToAgain;
      hide Attempt;
      NotListening(id);
      Known(id);
      OutcomesFit(id, source, env);
      Idle(id, status[id]);
      ghost var before := status;
      RestartTells(id, StopOutcomeOf(id, before[id].Started?, env), StartOutcomeOf(id, source, env));
      if RequiresConsistent(table, before) {
        RestartConsistent(id, StopOutcomeOf(id, before[id].Started?, env), StartOutcomeOf(id, source, env));
      }
      var unready := UnreadyDeps(table[id], status);
      if unready != {} {
        return Err(DependencyError(unready));
      }
      var fullRestart := status[id].Started?;
      status := status[id := Restarting];
      var after := RestartSelf(id, source, env, fullRestart, before[id]);
      status, r := status[id := after.0], after.1;
    }

    /** Stop the unit if it was started, and start it again unless that failed. */
    method RestartSelf(id: UnitId, source: Source, env: Env, fullRestart: bool, ghost was: Status)
      returns (after: (Status, OpResult))
      requires Fixed() && status.Keys == table.Keys && OthersAgree(id) && Agrees(id, was)
      requires id in table && EnvFits(id, env) && fullRestart == was.Started?
      modifies this`activated, this`unforked, Parts()
      ensures OthersAgree(id) && OthersUntouched(id) && Agrees(id, after.0)
      ensures after == (Started(Running), Ok) ==> Acquired(id, env)
      ensures (id in socketConfs || id.kind != Socket) && var stop := StopOutcomeOf(id, was.Started?, env);
        after == if fullRestart && stop.StopFailure? then AfterStop(stop) else AfterStart(StartOutcomeOf(id, source, env))
      ensures ListenedToAgain(id, after == (Started(WaitingForSocket), Ok), old(activated), activated)
      ensures env.start.forked ==> unforked <= old(unforked)
    {
      hide Fixed;
      hide Agrees;
      hide StartOutcomeOf;
      hide StopOutcomeOf;
      hide ListenedToAgain;
      Known(id);
      Idle(id, was);
      NotListening(id);
      if fullRestart {
        var stopped := StopSelf(id, env, was);
        if stopped.StopFailure? {
          HoldsNothing(id, AfterStop(stopped).0);
          return AfterStop(stopped);
        }
      }
      var o := StartSelf(id, source, env);
      return AfterStart(o);
    }

    // ---------- recursive stop ----------

    /** A rank for units from which following `required_by` leads into no cycle. */
    ghost predicate RankedDependents(rank: map<UnitId, nat>) {
      RankedPart(RelGraph(table, RequiredBy), rank)
    }

    lemma DependentsKnown(id: UnitId, rank: map<UnitId, nat>)
      requires Fixed() && RankedDependents(rank) && id in table && id in rank
      ensures id in RelGraph(table, RequiredBy)
      ensures RelGraph(table, RequiredBy)[id] == table[id].deps.requiredBy
      ensures forall x :: x in table[id].deps.requiredBy ==> x in table && x in rank && rank[x] < rank[id]
    {
      forall x | x in table[id].deps.requiredBy ensures x in table && x in rank && rank[x] < rank[id] {
        assert Has(table, id, RequiredBy, x);
        assert Edge(RelGraph(table, RequiredBy), id, x);
      }
    }

    /** Stop the unit after everything that requires it; run as a whole the guard never gets in the way. */
    method DeactivateUnitRecursive(id: UnitId, envs: UnitId -> Env, ghost rank: map<UnitId, nat>) returns (r: OpResult)
      requires Valid() && RankedDependents(rank) && (id in table ==> id in rank)
      modifies this`status, Parts()
      ensures Valid()
      ensures id !in table ==> r == Err(UnitNotFound) && status == old(status)
      ensures id in table ==> StopEffect(RelGraph(table, RequiredBy), [id], old(status), status, r)
      ensures old(RequiresConsistent(table, status)) ==> RequiresConsistent(table, status)
      decreases if id in table && id in rank then rank[id] + 1 else 0, 0
    {
      hide Fixed;
      hide Agrees;
      hide RequiresConsistent;
      hide StopEffect;
      hide UnkilledDependents;
      hide RankedPart;
      hide RelGraph;
      if id !in table {
        return Err(UnitNotFound);
      }
      DependentsKnown(id, rank);
      ghost var g := RelGraph(table, RequiredBy);
      ghost var before := status;
      ghost var n;
      r, n := DeactivateUnitsRecursive(table[id].deps.requiredBy, envs, rank, rank[id]);
      assert g[id][..|g[id]|] == g[id];
      if r.Err? {
        StopEffectStretches(g, g[id][..n], g[id], before, status, r);
        StopEffectOfFailure(g, id, before, status, r);
        return;
      }
      StoppedDependents(g, g[id], before, status);
      ghost var middle := status;
      AllKilled(id);
      r := Deactivate(id, envs(id));
      StopEffectOfUnit(g, id, before, middle, status[id], r);
    }

    lemma AllKilled(id: UnitId)
      requires Fixed() && status.Keys == table.Keys && id in table
      requires forall x :: x in table[id].deps.requiredBy && x in status ==> status[x].Stopped?
      ensures (forall a :: a in table[id].deps.requiredBy ==> a in status) && UnkilledDependents(table[id], status) == {}
    {
      Known(id);
    }

    /**
     * One after the other, in order; the first unit that fails to stop, or else the first unknown id, ends it with its
     * error. Of the list the first `n` units have been dealt with.
     */
    method DeactivateUnitsRecursive(ids: seq<UnitId>, envs: UnitId -> Env, ghost rank: map<UnitId, nat>, ghost bound: nat)
      returns (r: OpResult, ghost n: nat)
      requires Valid() && RankedDependents(rank)
      requires forall x :: x in ids && x in table ==> x in rank && rank[x] < bound
      modifies this`status, Parts()
      ensures Valid()
      ensures n <= |ids| && forall i :: 0 <= i < n ==> ids[i] in table
      ensures StopEffect(RelGraph(table, RequiredBy), ids[..n], old(status), status, if r == Err(UnitNotFound) then Ok else r)
      ensures r.Ok? ==> n == |ids|
      ensures r == Err(UnitNotFound) ==> n < |ids| && ids[n] !in table
      ensures r.Err? && r != Err(UnitNotFound) ==>
        n > 0 && AllStoppedCleanly(RelGraph(table, RequiredBy), ids[..n - 1], old(status), status)
      ensures old(RequiresConsistent(table, status)) ==> RequiresConsistent(table, status)
      decreases bound, 1
    {
      hide Fixed;
      hide Agrees;
      hide RequiresConsistent;
      hide StopEffect;
      hide AllStoppedCleanly;
      hide RankedPart;
      hide RelGraph;
      ghost var g := RelGraph(table, RequiredBy);
      StopEffectOfNone(g, status);
      for i := 0 to |ids|
        invariant Valid() && (forall j :: 0 <= j < i ==> ids[j] in table) && StopEffect(g, ids[..i], old(status), status, Ok)
        invariant old(RequiresConsistent(table, status)) ==> RequiresConsistent(table, status)
      {
        ghost var middle := status;
        r := DeactivateUnitRecursive(ids[i], envs, rank);
        if ids[i] !in table {
          n := i;
          return;
        }
        StopEffectOfMore(g, ids[..i], ids[i], old(status), middle, status, r);
        assert ids[..i] + [ids[i]] == ids[..i + 1];
        ErrorIsOwn(g, [ids[i]], middle, status, r);
        if r.Err? {
          StopsStay(g, ids[..i], [ids[i]], old(status), middle, status, r);
          n := i + 1;
          return;
        }
      }
      r, n := Ok, |ids|;
      assert ids[..|ids|] == ids;
    }

    lemma ErrorIsOwn(g: Graph, ids: seq<UnitId>, st0: StatusMap, st1: StatusMap, r: OpResult)
      requires StopEffect(g, ids, st0, st1, r)
      ensures r != Err(UnitNotFound)
    {
    }

    // ---------- shutdown ----------

    /** Any unit that is started and comes before no started unit; None only if there is no such unit. */
    method GetNextServiceToShutdown() returns (r: Option<UnitId>)
      requires Valid()
      ensures r.Some? ==> NextToShutDown(table, status, r.value)
      ensures r.None? ==> forall id :: !NextToShutDown(table, status, id)
    {
      var todo := table.Keys;
      while todo != {}
        invariant forall id :: id !in todo ==> !NextToShutDown(table, status, id)
      {
        var id :| id in todo;
        if NextToShutDown(table, status, id) {
          return Some(id);
        }
        todo := todo - {id};
      }
      r := None;
    }

    /** Errors while stopping are only logged. */
    method ShutdownUnit(id: UnitId, env: Env)
      requires Valid() && id in table
      modifies this`status, Parts()
      ensures Valid() && OthersUntouched(id) && status == old(status)[id := Stopped(StoppedFinal, [])]
    {
      hide Fixed;
      hide Agrees;
      hide StopOutcomeOf;
      ghost var before := status[id];
      status := status[id := Stopping];
      var _ := StopSelf(id, env, before);
      HoldsNothing(id, Stopped(StoppedFinal, []));
      status := status[id := Stopped(StoppedFinal, [])];
    }

    /**
     * Everything that was started is stopped, and nothing else changes. A unit is stopped only after all started
     * units that come after it; requires-consistency, if it held before, holds after each of the stops.
     */
    method ShutdownSequence(envs: UnitId -> Env) returns (ghost order: seq<UnitId>)
      requires Valid() && Acyclic(BeforeGraph(table))
      modifies this`status, Parts()
      ensures Valid()
      ensures forall x :: x in table ==> (
        && x in old(status)
        && status[x] == if old(status)[x].Started? then Stopped(StoppedFinal, []) else old(status)[x])
      ensures NoRepeat(order) && forall x :: x in order <==> x in old(status) && old(status)[x].Started?
      ensures StopsLaterFirst(table, old(status), order)
      ensures old(RequiresConsistent(table, status)) ==> ConsistentThroughout(table, old(status), order)
    {
      hide Fixed;
      hide Agrees;
      hide Acyclic;
      hide NextToShutDown;
      hide StopsLaterFirst;
      hide RequiresConsistent;
      hide ConsistentThroughout;
      order := [];
      NothingStopped(table, status);
      if RequiresConsistent(table, status) {
        ConsistentAtFirst(table, status);
      }
      while true
        invariant Valid() && ShutDownSoFar(table, old(status), status, order)
        invariant old(RequiresConsistent(table, status)) ==> ConsistentThroughout(table, old(status), order)
        decreases |set x | x in status && status[x].Started?|
      {
        var next := GetNextServiceToShutdown();
        if next.None? {
          NothingLeft();
          break;
        }
        ghost var middle := status;
        ShutDownOneMore(table, old(status), middle, order, next.value);
        FewerStarted(table, middle, next.value);
        if old(RequiresConsistent(table, status)) {
          StillConsistent(old(status), order, next.value);
        }
        ShutdownUnit(next.value, envs(next.value));
        order := order + [next.value];
      }
    }

    lemma StillConsistent(st0: StatusMap, order: seq<UnitId>, id: UnitId)
      requires Valid() && ShutDownSoFar(table, st0, status, order) && NextToShutDown(table, status, id)
      requires ConsistentThroughout(table, st0, order)
      ensures ConsistentThroughout(table, st0, order + [id])
    {
      hide ConsistentThroughout;
      hide ShutDownSoFar;
      hide NextToShutDown;
      ConsistentAfterOneMore(table, st0, status, order, id);
    }

    lemma NothingLeft()
      requires Valid() && Acyclic(BeforeGraph(table)) && forall id :: !NextToShutDown(table, status, id)
      ensures forall x :: x in status ==> !status[x].Started?
    {
      if x :| x in status && status[x].Started? {
        SomethingToShutDown(table, status);
      }
    }
  }
}
