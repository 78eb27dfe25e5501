/** The running process of a service, and the store of open sockets. */
module Services {
  import opened Wrappers

  import opened Units
  import opened UnitStatus

  /** `waitsOnPid`: a oneshot or notify service, whose start waits for something of its process. */
  datatype ServiceConf = ServiceConf(accept: bool, hasSockets: bool, waitsOnPid: bool)

  /**
   * Which steps of a start succeed, and the pid the fork yields. A fork that fails is not an error: it is only logged,
   * and the start goes on without a process.
   */
  datatype StartEnv = StartEnv(prepared: bool, prestart: bool, spawned: bool, forked: bool, waited: bool,
    poststart: bool, poststop: bool, pid: int)

  /** Which commands of a stop succeed. */
  datatype StopEnv = StopEnv(stop: bool, poststop: bool)

  datatype StartResult = ServiceStarted | ServiceWaits | ServiceStartFailed(e: ServiceError)

  datatype KillResult = Killed | KillFailed(e: ServiceError)

  /** The first step of a start that fails decides the error; most of them run the poststop commands as well. */
  function StartError(env: StartEnv): Option<ServiceError> {
    if !env.prepared then Some(PreparingFailed)
    else if !env.prestart then Some(if env.poststop then PrestartFailed else PrestartAndPoststopFailed)
    else if !env.spawned then Some(StartFailed)
    else if !env.waited then Some(if env.poststop then StartFailed else StartAndPoststopFailed)
    else if !env.poststart then Some(if env.poststop then PrestartFailed else PoststartAndPoststopFailed)
    else None
  }

  /** Poststart commands that fail are reported as failed prestart commands, exactly if the poststop commands succeed. */
  lemma MisreportedPoststart(env: StartEnv)
    ensures StartError(env) == Some(PrestartFailed) && env.prestart <==>
      env.prepared && env.prestart && env.spawned && env.waited && !env.poststart && env.poststop
    ensures StartError(env) == Some(PrestartFailed) && !env.prestart <==> env.prepared && !env.prestart && env.poststop
  {
  }

  /** Each error tells which steps of the start succeeded and whether the poststop commands did, with that exception. */
  lemma StartErrorTells(env: StartEnv)
    ensures var r := StartError(env);
      && (r == None <==> env.prepared && env.prestart && env.spawned && env.waited && env.poststart)
      && (r == Some(PreparingFailed) <==> !env.prepared)
      && (r == Some(PrestartAndPoststopFailed) <==> env.prepared && !env.prestart && !env.poststop)
      && (r == Some(StartFailed) <==> env.prepared && env.prestart && (!env.spawned || (!env.waited && env.poststop)))
      && (r == Some(StartAndPoststopFailed) <==>
           env.prepared && env.prestart && env.spawned && !env.waited && !env.poststop)
      && (r == Some(PoststartAndPoststopFailed) <==>
           env.prepared && env.prestart && env.spawned && env.waited && !env.poststart && !env.poststop)
      && (r == Some(PrestartFailed) <==>
           env.prepared && env.poststop && (!env.prestart || (env.spawned && env.waited && !env.poststart)))
  {
  }

  /** So does each error of a stop. */
  lemma KillErrorTells(env: StopEnv)
    ensures var r := KillError(env);
      && (r == None <==> env.stop && env.poststop)
      && (r == Some(StopFailed) <==> !env.stop && env.poststop)
      && (r == Some(StopAndPoststopFailed) <==> !env.stop && !env.poststop)
      && (r == Some(PoststopFailed) <==> env.stop && !env.poststop)
  {
  }

  function KillError(env: StopEnv): Option<ServiceError> {
    if !env.stop then Some(if env.poststop then StopFailed else StopAndPoststopFailed)
    else if !env.poststop then Some(PoststopFailed)
    else None
  }

  /** Only a service with sockets that is not woken by one of them waits. */
  predicate WaitsForSocket(conf: ServiceConf, source: Source) {
    source == Regular && conf.hasSockets
  }

  class Service {
    var pid: Option<int>
    var processGroup: Option<int>

    constructor ()
      ensures pid == None && processGroup == None
    {
      pid, processGroup := None, None;
    }

    /** The pid and the process group are set and cleared together. */
    ghost predicate Consistent()
      reads this
    {
      pid.None? <==> processGroup.None?
    }

    method RunPoststop(ok: bool) returns (r: bool)
      modifies this
      ensures pid == None && processGroup == None && r == ok
    {
      r := ok;
      pid := None;
      processGroup := None;
    }

    /**
     * A wait for the pid of a process that could not be forked would panic. A service waits for its sockets exactly if it
     * has some and none of them has woken it.
     */
    method Start(conf: ServiceConf, source: Source, env: StartEnv) returns (r: StartResult)
      requires conf.waitsOnPid ==> env.forked
      modifies this
      ensures old(pid.Some? || processGroup.Some?) ==> (
        && r == ServiceStartFailed(AlreadyHasPid)
        && pid == old(pid) && processGroup == old(processGroup))
      ensures old(pid.None? && processGroup.None?) ==> (
        && (pid, processGroup) == (if r == ServiceStarted && env.forked then (Some(env.pid), Some(-env.pid)) else (None, None))
        && r == (if conf.accept then ServiceStartFailed(InetdNotSupported)
             else if source == Regular && conf.hasSockets then ServiceWaits
             else match StartError(env) case None => ServiceStarted case Some(e) => ServiceStartFailed(e)))
      ensures r == ServiceWaits <==>
        old(pid.None? && processGroup.None?) && !conf.accept && source == Regular && conf.hasSockets
    {
      if pid.Some? {
        return ServiceStartFailed(AlreadyHasPid);
      }
      if processGroup.Some? {
        return ServiceStartFailed(AlreadyHasPid);
      }
      if conf.accept {
        return ServiceStartFailed(InetdNotSupported);
      }
      if source == SocketActivation || !conf.hasSockets {
        if !env.prepared {
          return ServiceStartFailed(PreparingFailed);
        }
        if !env.prestart {
          var stopped := RunPoststop(env.poststop);
          return ServiceStartFailed(if stopped then PrestartFailed else PrestartAndPoststopFailed);
        }
        if !env.spawned {
          return ServiceStartFailed(StartFailed);
        }
        if env.forked {
          pid := Some(env.pid);
          processGroup := Some(-env.pid);
        }
        if !env.waited {
          var stopped := RunPoststop(env.poststop);
          return ServiceStartFailed(if stopped then StartFailed else StartAndPoststopFailed);
        }
        if !env.poststart {
          var stopped := RunPoststop(env.poststop);
          return ServiceStartFailed(if stopped then PrestartFailed else PoststartAndPoststopFailed);
        }
        return ServiceStarted;
      } else {
        return ServiceWaits;
      }
    }

    /** Whatever fails, afterwards the service has no process. */
    method Kill(env: StopEnv) returns (r: KillResult)
      modifies this
      ensures pid == None && processGroup == None
      ensures r == match KillError(env) case None => Killed case Some(e) => KillFailed(e)
    {
      if !env.stop {
        var stopped := RunPoststop(env.poststop);
        return KillFailed(if stopped then StopFailed else StopAndPoststopFailed);
      }
      var stopped := RunPoststop(env.poststop);
      return if stopped then Killed else KillFailed(PoststopFailed);
    }
  }

  /** An open file descriptor of a socket unit, with the unit and the name it was configured with. */
  type GlobalEntry = seq<(UnitId, string, int)>

  class FdStore {
    var globalSockets: map<string, GlobalEntry>

    constructor ()
      ensures globalSockets == map[]
    {
      globalSockets := map[];
    }

    /** Hands the new entry back, and stores nothing, if there is one under that name already. */
    method InsertGlobal(name: string, fds: GlobalEntry) returns (rejected: Option<GlobalEntry>)
      modifies this
      ensures rejected == if name in old(globalSockets) then Some(fds) else None
      ensures globalSockets == if name in old(globalSockets) then old(globalSockets) else old(globalSockets)[name := fds]
    {
      if name !in globalSockets {
        globalSockets := globalSockets[name := fds];
        rejected := None;
      } else {
        rejected := Some(fds);
      }
    }

    method RemoveGlobal(name: string) returns (removed: Option<GlobalEntry>)
      modifies this
      ensures removed == if name in old(globalSockets) then Some(old(globalSockets)[name]) else None
      ensures globalSockets == old(globalSockets) - {name}
    {
      removed := if name in globalSockets then Some(globalSockets[name]) else None;
      globalSockets := globalSockets - {name};
    }
  }

  datatype SocketConf = SocketConf(filedescName: string, count: nat)

  function EntryOf(conf: SocketConf, id: UnitId, fds: seq<int>): GlobalEntry
    requires |fds| == conf.count
  {
    seq(|fds|, i requires 0 <= i < |fds| => (id, conf.filedescName, fds[i]))
  }

  /** Open every configured socket and store the descriptors under the name of the unit. */
  method OpenAll(conf: SocketConf, id: UnitId, fds: seq<int>, opened_: bool, store: FdStore)
    returns (ok: bool, rejected: Option<GlobalEntry>)
    requires |fds| == conf.count
    modifies store
    ensures ok == opened_
    ensures rejected == if ok && id.name in old(store.globalSockets) then Some(EntryOf(conf, id, fds)) else None
    ensures store.globalSockets ==
      if ok && rejected.None? then old(store.globalSockets)[id.name := EntryOf(conf, id, fds)] else old(store.globalSockets)
  {
    if !opened_ {
      return false, None;
    }
    var entry: GlobalEntry := [];
    for i := 0 to conf.count
      invariant entry == EntryOf(conf, id, fds)[..i]
    {
      entry := entry + [(id, conf.filedescName, fds[i])];
    }
    assert entry == EntryOf(conf, id, fds);
    rejected := store.InsertGlobal(id.name, entry);
    ok := true;
  }

  /** Closing stops at the first descriptor that fails to close; the entry is gone in any case. */
  method CloseAll(conf: SocketConf, name: string, failsAt: nat, store: FdStore) returns (ok: bool)
    requires name in store.globalSockets ==> |store.globalSockets[name]| <= conf.count
    modifies store
    ensures store.globalSockets == old(store.globalSockets) - {name}
    ensures ok <==> name !in old(store.globalSockets) || failsAt >= |old(store.globalSockets)[name]|
  {
    var removed := store.RemoveGlobal(name);
    ok := true;
    if removed.Some? {
      var fds := removed.value;
      for i := 0 to |fds|
        invariant i <= failsAt
      {
        // the i-th descriptor is closed by the i-th configuration
        assert i < conf.count;
        if i == failsAt {
          return false;
        }
      }
    }
  }
}
