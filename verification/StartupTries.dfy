/** Which needed units a startup run tries to start, although something that they come after may have failed. */
module StartupTries {
  import opened Wrappers

  import opened Units
  import opened UnitStatus
  import opened StartupPool
  import opened StartupRuns

  // ---------- a unit that becomes ready as a predecessor becomes started is tried ----------

  /** Every predecessor has been tried, and those that are required are started. */
  ghost predicate PredecessorsTried(t: UnitTable, st: StatusMap, u: UnitId) {
    u in t && forall a :: a in t[u].deps.after ==>
      a in st && st[a] != NeverStarted && (a in t[u].deps.requires_ ==> st[a].Started?)
  }

  lemma TriedIsReady(t: UnitTable, st: StatusMap, u: UnitId)
    requires Closed(t) && st.Keys == t.Keys && PredecessorsTried(t, st, u)
    ensures IdsIn(t, t[u].deps.after) && Ready(t, st, u)
  {
    AfterInTable(t, u);
  }

  ghost predicate OnItsWay(t: UnitTable, s: State, u: UnitId) {
    u in s.st && (s.st[u].Started? || u in s.failed || Pending(t, s, u))
  }

  /** A ready unit on its way stays both. */
  lemma StaysOnItsWay(t: UnitTable, needed: set<UnitId>, s: State, i: nat, o: StartOutcome, u: UnitId)
    requires Startable(t, needed) && WellTyped(t, s) && Inv(t, needed, s) && Enabled(s, i) && u in needed
    requires PredecessorsTried(t, s.st, u) && OnItsWay(t, s, u)
    ensures var s' := Step(t, needed, s, i, o); PredecessorsTried(t, s'.st, u) && OnItsWay(t, s', u)
  {
    var s' := Step(t, needed, s, i, o);
    TriedIsReady(t, s.st, u);
    StepMovesOn(t, needed, s, i, o);
    StepShape(t, needed, s, i, o);
    hide Inv;
    hide Step;
    hide Ready;
    if !s.st[u].Started? && u !in s.failed {
      var j :| 0 <= j < |s.acts| && ActIn(t, s.acts[j]) && Covers(t, s.acts[j], u);
      if j == i {
        StepCovers(t, needed, s, i, o, u);
      } else {
        assert s'.acts[j] == s.acts[j];
      }
    }
  }

  lemma {:induction false} OnItsWayFrom(t: UnitTable, ids: seq<UnitId>, states: seq<State>, picks: seq<Pick>, k: nat, m: nat, u: UnitId)
    requires Startable(t, Elements(ids)) && IsRun(t, ids, states, picks) && k <= m <= |picks| && u in ids
    requires PredecessorsTried(t, states[k].st, u) && OnItsWay(t, states[k], u)
    ensures PredecessorsTried(t, states[m].st, u) && OnItsWay(t, states[m], u)
    decreases m
  {
    hide PredecessorsTried;
    hide OnItsWay;
    hide Inv;
    hide Step;
    if m > k {
      OnItsWayFrom(t, ids, states, picks, k, m - 1, u);
      RunKeepsInv(t, ids, states, picks, m - 1);
      StepOfRun(t, ids, states, picks, m - 1);
      StaysOnItsWay(t, Elements(ids), states[m - 1], picks[m - 1].0, picks[m - 1].1, u);
    }
  }

  lemma StartOfRunAnnounces(t: UnitTable, ids: seq<UnitId>, states: seq<State>, picks: seq<Pick>, k: nat, u: UnitId, a: UnitId)
    requires Startable(t, Elements(ids)) && IsRun(t, ids, states, picks) && k < |picks| && u in ids
    requires a in states[k].st && !states[k].st[a].Started? && a in states[k + 1].st && states[k + 1].st[a].Started?
    requires PredecessorsTried(t, states[k + 1].st, u) && a in t[u].deps.after
    ensures OnItsWay(t, states[k + 1], u)
  {
    hide Step;
    RunKeepsInv(t, ids, states, picks, k);
    RunKeepsInv(t, ids, states, picks, k + 1);
    StepOfRun(t, ids, states, picks, k);
    StartedAnnounces(t, Elements(ids), states[k], picks[k].0, picks[k].1, u, a);
    hide Inv;
  }

  /**
   * A failed predecessor that is not required does not hold a unit back: if some step starts one of the predecessors and
   * now all of them have been tried and the required ones are started, the unit is tried before the pool is empty.
   */
  lemma TriedOnceReady(t: UnitTable, ids: seq<UnitId>, states: seq<State>, picks: seq<Pick>, k: nat, u: UnitId, a: UnitId)
    requires Startable(t, Elements(ids)) && IsRun(t, ids, states, picks) && k < |picks| && Drained(states[|picks|])
    requires a in states[k].st && !states[k].st[a].Started? && a in states[k + 1].st && states[k + 1].st[a].Started?
    requires u in ids && a in t[u].deps.after
    requires forall b :: b in t[u].deps.after ==>
      b in states[k + 1].st && states[k + 1].st[b] != NeverStarted && (b in t[u].deps.requires_ ==> states[k + 1].st[b].Started?)
    ensures var last := states[|picks|]; u in last.st && (last.st[u].Started? || u in last.failed)
  {
    assert PredecessorsTried(t, states[k + 1].st, u);
    StartOfRunAnnounces(t, ids, states, picks, k, u, a);
    OnItsWayFrom(t, ids, states, picks, k + 1, |picks|, u);
    NothingPending(t, states[|picks|], u);
  }

  // ---------- a unit is tried only after some predecessor has been started ----------

  /** The unit comes after nothing, or something that it comes after is started. */
  ghost predicate Announced(t: UnitTable, st: StatusMap, u: UnitId) {
    u in t && (t[u].deps.after == [] || exists a :: a in t[u].deps.after && a in st && st[a].Started?)
  }

  ghost predicate AllAnnounced(t: UnitTable, st: StatusMap, ids: seq<UnitId>) {
    forall u :: u in ids ==> Announced(t, st, u)
  }

  /** The first scan runs alone, before anything has been tried; everything later deals with announced units. */
  ghost predicate ActAnnounced(t: UnitTable, s: State, a: Act) {
    match a
    case Scan(first, todo, cur, found) =>
      if first then s.acts == [a] && forall u :: u in s.st ==> s.st[u] == NeverStarted
      else AllAnnounced(t, s.st, todo) && AllAnnounced(t, s.st, found) && (cur.Some? ==> Announced(t, s.st, cur.value.u))
    case Submit(found) => AllAnnounced(t, s.st, found)
    case Next(u) => u in s.st && s.st[u].Started?
    case Done => true
    case _ => Announced(t, s.st, a.u)
  }

  ghost predicate ActsAnnounced(t: UnitTable, s: State) {
    && (forall i :: 0 <= i < |s.acts| ==> ActAnnounced(t, s, s.acts[i]))
    && (forall u :: u in s.st && s.st[u] != NeverStarted ==> Announced(t, s.st, u))
  }

  lemma AnnouncedStays(t: UnitTable, st: StatusMap, st': StatusMap)
    requires MovesOn(st, st')
    ensures forall u :: Announced(t, st, u) ==> Announced(t, st', u)
    ensures forall ids :: AllAnnounced(t, st, ids) ==> AllAnnounced(t, st', ids)
  {
  }

  /** What is ready while nothing has been tried comes after nothing. */
  lemma ReadyAtFirst(t: UnitTable, st: StatusMap, ids: seq<UnitId>)
    requires Closed(t) && st.Keys == t.Keys && IdsIn(t, ids) && AllReady(t, st, ids)
    requires forall u :: u in st ==> st[u] == NeverStarted
    ensures AllAnnounced(t, st, ids)
  {
    forall u | u in ids ensures Announced(t, st, u) {
      AfterInTable(t, u);
      assert Ready(t, st, u);
      assert t[u].deps.after != [] ==> t[u].deps.after[0] in t[u].deps.after;
    }
  }

  lemma ScanStaysAnnounced(t: UnitTable, needed: set<UnitId>, s: State, i: nat, o: StartOutcome)
    requires Closed(t) && WellTyped(t, s) && Enabled(s, i) && s.acts[i].Scan? && ActOk(t, needed, s.st, s.acts[i])
    requires ActAnnounced(t, s, s.acts[i])
    ensures ActAnnounced(t, Step(t, needed, s, i, o), ScanStep(t, needed, s.st, s.acts[i]))
  {
    var a := s.acts[i];
    if a.first && a.cur.None? && a.todo == [] {
      ReadyAtFirst(t, s.st, a.found);
    }
    hide Announced;
    hide DepReady;
  }

  lemma LaterUnitsAnnounced(t: UnitTable, st: StatusMap, u: UnitId)
    requires Closed(t) && Mirrored(t) && u in t && u in st && st[u].Started?
    ensures AllAnnounced(t, st, t[u].deps.before)
  {
    AfterInTable(t, u);
    forall b | b in t[u].deps.before ensures Announced(t, st, b) {
      assert Has(t, u, Before, b);
      assert Has(t, b, Mirror(Before), u);
    }
  }

  lemma TaskStaysAnnounced(t: UnitTable, needed: set<UnitId>, s: State, i: nat, o: StartOutcome)
    requires Closed(t) && Mirrored(t) && WellTyped(t, s) && Enabled(s, i) && !s.acts[i].Scan?
    requires ActAnnounced(t, s, s.acts[i]) && MovesOn(s.st, Step(t, needed, s, i, o).st)
    ensures var s' := Step(t, needed, s, i, o);
      ActAnnounced(t, s', s'.acts[i]) && forall k :: |s.acts| <= k < |s'.acts| ==> ActAnnounced(t, s', s'.acts[k])
  {
    var s' := Step(t, needed, s, i, o);
    AnnouncedStays(t, s.st, s'.st);
    hide Announced;
    hide UnreadyDeps;
    match s.acts[i] {
      case Next(u) =>
        LaterUnitsAnnounced(t, s.st, u);
        assert s'.acts[|s.acts|] == Scan(false, t[u].deps.before, None, []);
      case Submit(found) =>
        if found != [] {
          assert s'.acts[|s.acts|] == Queued(found[0]);
        }
      case _ =>
    }
  }

  lemma OthersStayAnnounced(t: UnitTable, s: State, s': State, i: nat, j: nat)
    requires i < |s.acts| && j < |s.acts| && j != i && MovesOn(s.st, s'.st) && ActAnnounced(t, s, s.acts[j])
    ensures ActAnnounced(t, s', s.acts[j])
  {
    AnnouncedStays(t, s.st, s'.st);
    hide Announced;
  }

  lemma StepStaysAnnounced(t: UnitTable, needed: set<UnitId>, s: State, i: nat, o: StartOutcome)
    requires Startable(t, needed) && WellTyped(t, s) && Inv(t, needed, s) && Enabled(s, i) && ActsAnnounced(t, s)
    ensures ActsAnnounced(t, Step(t, needed, s, i, o))
  {
    var s' := Step(t, needed, s, i, o);
    StepMovesOn(t, needed, s, i, o);
    StepShape(t, needed, s, i, o);
    assert ActOk(t, needed, s.st, s.acts[i]);
    hide ActOk;
    if s.acts[i].Scan? {
      ScanStaysAnnounced(t, needed, s, i, o);
    } else {
      TaskStaysAnnounced(t, needed, s, i, o);
    }
    AnnouncedStays(t, s.st, s'.st);
    TouchedIsAnnounced(t, needed, s, i, o);
    assert s.acts[i].Scan? ==> s'.acts == s.acts[i := ScanStep(t, needed, s.st, s.acts[i])];
    hide Inv;
    hide Step;
    hide Announced;
    forall j | 0 <= j < |s.acts| && j != i ensures ActAnnounced(t, s', s'.acts[j]) {
      OthersStayAnnounced(t, s, s', i, j);
    }
  }

  lemma TouchedIsAnnounced(t: UnitTable, needed: set<UnitId>, s: State, i: nat, o: StartOutcome)
    requires Closed(t) && WellTyped(t, s) && Enabled(s, i) && ActAnnounced(t, s, s.acts[i])
    ensures forall u :: u in s.st && Step(t, needed, s, i, o).st[u] != s.st[u] ==> Announced(t, s.st, u)
  {
    hide UnreadyDeps;
    hide ScanStep;
    hide Announced;
  }

  lemma {:induction false} RunStaysAnnounced(t: UnitTable, ids: seq<UnitId>, states: seq<State>, picks: seq<Pick>, k: nat)
    requires Startable(t, Elements(ids)) && IsRun(t, ids, states, picks) && k <= |picks|
    ensures ActsAnnounced(t, states[k])
  {
    if k > 0 {
      hide ActsAnnounced;
      hide Inv;
      hide Step;
      RunStaysAnnounced(t, ids, states, picks, k - 1);
      RunKeepsInv(t, ids, states, picks, k - 1);
      StepOfRun(t, ids, states, picks, k - 1);
      StepStaysAnnounced(t, Elements(ids), states[k - 1], picks[k - 1].0, picks[k - 1].1);
    }
  }

  /** At every moment of every run a unit that has been tried comes after nothing, or after something that is started. */
  lemma TriedAfterAStart(t: UnitTable, ids: seq<UnitId>, states: seq<State>, picks: seq<Pick>, k: nat, u: UnitId)
    requires Startable(t, Elements(ids)) && IsRun(t, ids, states, picks) && k <= |picks|
    requires u in t && u in states[k].st && states[k].st[u] != NeverStarted && t[u].deps.after != []
    ensures exists a :: a in t[u].deps.after && a in states[k].st && states[k].st[a].Started?
  {
    RunStaysAnnounced(t, ids, states, picks, k);
    assert Announced(t, states[k].st, u);
  }

  // ---------- who has failed ----------

  /** At this moment the start of the unit comes to a failure. */
  ghost predicate FailsAt(s: State, pick: Pick, u: UnitId) {
    pick.0 < |s.acts| && s.acts[pick.0] == Run(u) && pick.1.StartFailure?
  }

  lemma StepFails(t: UnitTable, needed: set<UnitId>, s: State, pick: Pick, u: UnitId)
    requires Closed(t) && WellTyped(t, s) && Enabled(s, pick.0)
    ensures u in Step(t, needed, s, pick.0, pick.1).failed <==> u in s.failed || FailsAt(s, pick, u)
  {
    hide ScanStep;
    hide UnreadyDeps;
  }

  /** The failed units of a run are those whose start came to a failure at some moment. */
  lemma {:induction false} FailedExactly(t: UnitTable, ids: seq<UnitId>, states: seq<State>, picks: seq<Pick>, k: nat, u: UnitId)
    requires Closed(t) && IsRun(t, ids, states, picks) && k <= |picks|
    ensures u in states[k].failed <==> exists m :: 0 <= m < k && FailsAt(states[m], picks[m], u)
  {
    if k > 0 {
      FailedExactly(t, ids, states, picks, k - 1, u);
      hide Step;
      hide FailsAt;
      StepOfRun(t, ids, states, picks, k - 1);
      StepFails(t, Elements(ids), states[k - 1], picks[k - 1], u);
    }
  }
}
