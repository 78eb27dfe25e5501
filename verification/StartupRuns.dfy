/** Whole startup runs: they end, they never get stuck, and they leave no needed unit behind. */
module StartupRuns {
  import opened Wrappers

  import opened Units
  import opened Digraph
  import opened IdVectors
  import opened UnitStatus
  import opened StartupPool

  // ---------- every run ends: a weight that falls with each step ----------

  /**
   * `w[u]` is the weight of a queued task for `u`. A unit is queued again for each predecessor that finishes, so the
   * weight of a task has to pay for the job that looks at everything that comes after its unit.
   */
  type Weights = map<UnitId, nat>

  function FoundWeight(t: UnitTable, w: Weights, first: bool, u: UnitId): nat
    requires u in t && u in w
  {
    if first then |t[u].deps.after| + 4 + w[u] else w[u] + 1
  }

  function FoundSum(t: UnitTable, w: Weights, first: bool, ids: seq<UnitId>): nat
    requires IdsIn(t, ids) && t.Keys <= w.Keys
  {
    if ids == [] then 0 else FoundWeight(t, w, first, ids[0]) + FoundSum(t, w, first, ids[1..])
  }

  function TodoSum(t: UnitTable, w: Weights, first: bool, ids: seq<UnitId>): nat
    requires IdsIn(t, ids) && t.Keys <= w.Keys
  {
    if ids == [] then 0
    else |t[ids[0]].deps.after| + 3 + FoundWeight(t, w, first, ids[0]) + TodoSum(t, w, first, ids[1..])
  }

  ghost predicate Potential(t: UnitTable, w: Weights)
    requires Closed(t)
  {
    && t.Keys <= w.Keys
    && forall u :: u in t ==> (AfterInTable(t, u); w[u] >= 7 + TodoSum(t, w, false, t[u].deps.before))
  }

  function ActWeight(t: UnitTable, w: Weights, a: Act): int
    requires ActIn(t, a) && t.Keys <= w.Keys
  {
    match a
    case Scan(first, todo, cur, found) =>
      (if first then 5 else 2) + FoundSum(t, w, first, found) + TodoSum(t, w, first, todo) +
      (match cur case None => 0 case Some(c) => 1 + |c.left| + FoundWeight(t, w, first, c.u))
    case Submit(found) => 1 + FoundSum(t, w, false, found)
    case Queued(u) => w[u]
    case Check(u) => w[u] as int - 1
    case Guard(u) => w[u] as int - 2
    case Run(u) => w[u] as int - 3
    case Next(u) => w[u] as int - 4
    case Done => 0
  }

  function TotalWeight(t: UnitTable, w: Weights, acts: seq<Act>): int
    requires t.Keys <= w.Keys && forall i :: 0 <= i < |acts| ==> ActIn(t, acts[i])
  {
    if acts == [] then 0 else ActWeight(t, w, acts[0]) + TotalWeight(t, w, acts[1..])
  }

  lemma {:induction false} TotalOfUpdate(t: UnitTable, w: Weights, acts: seq<Act>, i: nat, a: Act)
    requires t.Keys <= w.Keys && (forall i :: 0 <= i < |acts| ==> ActIn(t, acts[i])) && i < |acts| && ActIn(t, a)
    ensures TotalWeight(t, w, acts[i := a]) == TotalWeight(t, w, acts) - ActWeight(t, w, acts[i]) + ActWeight(t, w, a)
  {
    hide ActWeight;
    hide ActIn;
    if i > 0 {
      TotalOfUpdate(t, w, acts[1..], i - 1, a);
      assert acts[i := a][1..] == acts[1..][i - 1 := a];
    } else {
      assert acts[i := a][1..] == acts[1..];
    }
  }

  lemma {:induction false} TotalOfAppend(t: UnitTable, w: Weights, acts: seq<Act>, a: Act)
    requires t.Keys <= w.Keys && (forall i :: 0 <= i < |acts| ==> ActIn(t, acts[i])) && ActIn(t, a)
    ensures TotalWeight(t, w, acts + [a]) == TotalWeight(t, w, acts) + ActWeight(t, w, a)
  {
    hide ActWeight;
    hide ActIn;
    if acts == [] {
      assert acts + [a] == [a];
      assert TotalWeight(t, w, [a]) == ActWeight(t, w, a) + TotalWeight(t, w, []);
    } else {
      TotalOfAppend(t, w, acts[1..], a);
      assert (acts + [a])[1..] == acts[1..] + [a];
    }
  }

  lemma {:induction false} TotalIsNat(t: UnitTable, w: Weights, acts: seq<Act>)
    requires Closed(t) && Potential(t, w) && forall i :: 0 <= i < |acts| ==> ActIn(t, acts[i])
    ensures TotalWeight(t, w, acts) >= 0
  {
    if acts != [] {
      TotalIsNat(t, w, acts[1..]);
      hide Closed;
    }
  }

  lemma {:induction false} FoundSumOfAppend(t: UnitTable, w: Weights, first: bool, ids: seq<UnitId>, u: UnitId)
    requires IdsIn(t, ids) && u in t && t.Keys <= w.Keys
    ensures IdsIn(t, ids + [u]) && FoundSum(t, w, first, ids + [u]) == FoundSum(t, w, first, ids) + FoundWeight(t, w, first, u)
  {
    if ids == [] {
      assert ids + [u] == [u];
      assert FoundSum(t, w, first, [u]) == FoundWeight(t, w, first, u) + FoundSum(t, w, first, []);
    } else {
      FoundSumOfAppend(t, w, first, ids[1..], u);
      assert (ids + [u])[1..] == ids[1..] + [u];
    }
  }

  lemma {:induction false} FoundSumOfFilter(t: UnitTable, w: Weights, ids: seq<UnitId>, keep: set<UnitId>)
    requires IdsIn(t, ids) && t.Keys <= w.Keys
    ensures FoundSum(t, w, false, Filter(ids, keep)) <= FoundSum(t, w, false, ids)
  {
    if ids != [] {
      FoundSumOfFilter(t, w, ids[1..], keep);
    }
  }

  /** What the first scan found weighs as much as the second scan of it. */
  lemma {:induction false} FoundIsTodo(t: UnitTable, w: Weights, ids: seq<UnitId>)
    requires IdsIn(t, ids) && t.Keys <= w.Keys
    ensures FoundSum(t, w, true, ids) == TodoSum(t, w, false, ids)
  {
    if ids != [] {
      FoundIsTodo(t, w, ids[1..]);
    }
  }

  lemma ScanWeighsLess(t: UnitTable, needed: set<UnitId>, w: Weights, st: StatusMap, a: Act)
    requires Closed(t) && t.Keys <= w.Keys && a.Scan? && ActIn(t, a) && st.Keys == t.Keys
    ensures ActIn(t, ScanStep(t, needed, st, a)) && ActWeight(t, w, ScanStep(t, needed, st, a)) < ActWeight(t, w, a)
  {
    hide DepReady;
    match a.cur {
      case None =>
        if a.todo != [] {
          AfterInTable(t, a.todo[0]);
        } else if a.first {
          FoundIsTodo(t, w, a.found);
        } else {
          FoundSumOfFilter(t, w, a.found, needed);
        }
      case Some(c) =>
        if c.left == [] && c.ready {
          FoundSumOfAppend(t, w, a.first, a.found, c.u);
        }
    }
  }

  /** Every step of every activity lowers the total weight, a failed start included. */
  lemma StepWeighsLess(t: UnitTable, needed: set<UnitId>, w: Weights, s: State, i: nat, o: StartOutcome)
    requires Closed(t) && t.Keys <= w.Keys && Potential(t, w) && WellTyped(t, s) && Enabled(s, i)
    requires WellTyped(t, Step(t, needed, s, i, o))
    ensures TotalWeight(t, w, Step(t, needed, s, i, o).acts) < TotalWeight(t, w, s.acts)
  {
    hide TotalWeight;
    hide Potential;
    var s' := Step(t, needed, s, i, o);
    var a := s.acts[i];
    match a {
      case Scan(_, _, _, _) =>
        ScanWeighsLess(t, needed, w, s.st, a);
        TotalOfUpdate(t, w, s.acts, i, ScanStep(t, needed, s.st, a));
      case Submit(found) =>
        if found == [] {
          TotalOfUpdate(t, w, s.acts, i, Done);
        } else {
          TotalOfUpdate(t, w, s.acts, i, Submit(found[1..]));
          TotalOfAppend(t, w, s.acts[i := Submit(found[1..])], Queued(found[0]));
        }
      case Next(u) =>
        AfterInTable(t, u);
        NextPays(t, w, u);
        TotalOfUpdate(t, w, s.acts, i, Done);
        TotalOfAppend(t, w, s.acts[i := Done], Scan(false, t[u].deps.before, None, []));
      case Run(u) =>
        NextPays(t, w, u);
        TotalOfUpdate(t, w, s.acts, i, s'.acts[i]);
        assert s'.acts == s.acts[i := s'.acts[i]];
      case Guard(u) =>
        NextPays(t, w, u);
        TotalOfUpdate(t, w, s.acts, i, s'.acts[i]);
        assert s'.acts == s.acts[i := s'.acts[i]];
      case Queued(u) =>
        TotalOfUpdate(t, w, s.acts, i, Check(u));
      case Check(u) =>
        TotalOfUpdate(t, w, s.acts, i, s'.acts[i]);
        assert s'.acts == s.acts[i := s'.acts[i]];
      case Done =>
    }
  }

  lemma NextPays(t: UnitTable, w: Weights, u: UnitId)
    requires Closed(t) && Potential(t, w) && u in t
    ensures IdsIn(t, t[u].deps.before)
    ensures w[u] - 4 > ActWeight(t, w, Scan(false, t[u].deps.before, None, [])) && w[u] >= 7
  {
    AfterInTable(t, u);
  }

  // ---------- such weights exist ----------

  /** Weights for the units up to a rank, by recursion over the acyclic `before` edges. */
  lemma BuildWeights(t: UnitTable, rank: map<UnitId, nat>, n: nat) returns (w: Weights)
    requires Closed(t) && RankedBy(BeforeGraph(t), rank)
    ensures w.Keys == t.Keys
    ensures forall u :: u in t && rank[u] < n ==> (AfterInTable(t, u); w[u] >= 7 + TodoSum(t, w, false, t[u].deps.before))
  {
    if n == 0 {
      w := map u | u in t :: 0;
    } else {
      var w0 := BuildWeights(t, rank, n - 1);
      w := NextWeights(t, rank, n, w0);
    }
  }

  lemma NextWeights(t: UnitTable, rank: map<UnitId, nat>, n: nat, w0: Weights) returns (w: Weights)
    requires Closed(t) && RankedBy(BeforeGraph(t), rank) && w0.Keys == t.Keys && n > 0
    requires forall u :: u in t && rank[u] < n - 1 ==> (AfterInTable(t, u); w0[u] >= 7 + TodoSum(t, w0, false, t[u].deps.before))
    ensures w.Keys == t.Keys
    ensures forall u :: u in t && rank[u] < n ==> (AfterInTable(t, u); w[u] >= 7 + TodoSum(t, w, false, t[u].deps.before))
  {
    w := map u | u in t :: if rank[u] < n - 1 then w0[u] else (AfterInTable(t, u); 7 + TodoSum(t, w0, false, t[u].deps.before));
    forall u | u in t && rank[u] < n ensures (AfterInTable(t, u); w[u] >= 7 + TodoSum(t, w, false, t[u].deps.before)) {
      AfterInTable(t, u);
      forall v | v in t[u].deps.before ensures rank[v] < n - 1 {
        assert Edge(BeforeGraph(t), u, v);
      }
      TodoSumAgrees(t, w0, w, t[u].deps.before);
    }
  }

  lemma {:induction false} TodoSumAgrees(t: UnitTable, w: Weights, w': Weights, ids: seq<UnitId>)
    requires IdsIn(t, ids) && t.Keys <= w.Keys && t.Keys <= w'.Keys && forall x :: x in ids ==> w[x] == w'[x]
    ensures TodoSum(t, w, false, ids) == TodoSum(t, w', false, ids)
  {
    if ids != [] {
      TodoSumAgrees(t, w, w', ids[1..]);
    }
  }

  lemma WeightsExist(t: UnitTable) returns (w: Weights)
    requires Closed(t) && Acyclic(BeforeGraph(t))
    ensures Potential(t, w)
  {
    RelGraphClosed(t, Before);
    var rank := PartialRank(BeforeGraph(t), t.Keys);
    w := BuildWeights(t, rank, |t.Keys|);
  }

  // ---------- runs ----------

  /** Which activity steps, and what starting its unit comes to if that is its step. */
  type Pick = (nat, StartOutcome)

  ghost predicate StepBy(t: UnitTable, needed: set<UnitId>, s: State, pick: Pick, s': State)
    requires Closed(t)
  {
    WellTyped(t, s) && Enabled(s, pick.0) && s' == Step(t, needed, s, pick.0, pick.1)
  }

  /** A run from the all-NeverStarted state, with the needed ids handed to the first scan. */
  ghost predicate IsRun(t: UnitTable, ids: seq<UnitId>, states: seq<State>, picks: seq<Pick>)
    requires Closed(t)
  {
    && |states| == |picks| + 1
    && states[0] == Init(t, ids)
    && forall k :: 0 <= k < |picks| ==> StepBy(t, Elements(ids), states[k], picks[k], states[k + 1])
  }

  ghost function Elements(ids: seq<UnitId>): set<UnitId> {
    set x | x in ids
  }

  lemma InitKeepsInv(t: UnitTable, ids: seq<UnitId>)
    requires Startable(t, Elements(ids))
    ensures Inv(t, Elements(ids), Init(t, ids)) && WellTyped(t, Init(t, ids))
  {
    var s := Init(t, ids);
    var needed := Elements(ids);
    assert ActOk(t, needed, s.st, s.acts[0]);
    forall u | u in needed ensures Pending(t, s, u) {
      assert Covers(t, s.acts[0], u);
    }
    assert StatusesOk(t, needed, s.st);
  }

  lemma StepOfRun(t: UnitTable, ids: seq<UnitId>, states: seq<State>, picks: seq<Pick>, k: nat)
    requires Closed(t) && IsRun(t, ids, states, picks) && k < |picks|
    ensures StepBy(t, Elements(ids), states[k], picks[k], states[k + 1])
  {
  }

  lemma StepByKeepsInv(t: UnitTable, needed: set<UnitId>, s: State, pick: Pick, s': State)
    requires Startable(t, needed) && Inv(t, needed, s) && StepBy(t, needed, s, pick, s')
    ensures Inv(t, needed, s') && WellTyped(t, s')
  {
    hide Inv;
    hide Startable;
    hide Step;
    StepKeepsInv(t, needed, s, pick.0, pick.1);
  }

  lemma {:induction false} RunKeepsInv(t: UnitTable, ids: seq<UnitId>, states: seq<State>, picks: seq<Pick>, k: nat)
    requires Startable(t, Elements(ids)) && IsRun(t, ids, states, picks) && k <= |picks|
    ensures Inv(t, Elements(ids), states[k]) && WellTyped(t, states[k])
  {
    hide Inv;
    hide WellTyped;
    hide StepBy;
    if k == 0 {
      InitKeepsInv(t, ids);
    } else {
      RunKeepsInv(t, ids, states, picks, k - 1);
      StepOfRun(t, ids, states, picks, k - 1);
      StepByKeepsInv(t, Elements(ids), states[k - 1], picks[k - 1], states[k]);
    }
  }

  /** The activity is on its way to the start of the unit, which its guard has yet to let through or has let through. */
  predicate Tasks(a: Act, u: UnitId) {
    (a.Queued? || a.Check? || a.Guard? || a.Run?) && a.u == u
  }

  /**
   * In no interleaving is a queued unit refused by the guard: whatever its task has got to, its predecessors have been
   * tried and the required ones are started. And no unit is touched that is not needed.
   */
  lemma NoDependencyErrors(t: UnitTable, ids: seq<UnitId>, states: seq<State>, picks: seq<Pick>, k: nat)
    requires Startable(t, Elements(ids)) && IsRun(t, ids, states, picks) && k <= |picks|
    ensures states[k].st.Keys == t.Keys
    ensures forall i, u, a :: 0 <= i < |states[k].acts| && Tasks(states[k].acts[i], u) && u in t && a in t[u].deps.after ==>
      a in t && states[k].st[a] != NeverStarted && (a in t[u].deps.requires_ ==> states[k].st[a].Started?)
    ensures forall u :: u in t && u !in ids ==> states[k].st[u] == NeverStarted
  {
    RunKeepsInv(t, ids, states, picks, k);
    var needed, s := Elements(ids), states[k];
    forall i, u, a | 0 <= i < |s.acts| && Tasks(s.acts[i], u) && u in t && a in t[u].deps.after
      ensures a in t && s.st[a] != NeverStarted && (a in t[u].deps.requires_ ==> s.st[a].Started?)
    {
      assert ActOk(t, needed, s.st, s.acts[i]);
      OneIsReady(t, s.st, u);
      assert DepReady(t[u], a, s.st);
    }
  }

  /** At every moment of every run what is being started or is started has its predecessors ready. */
  lemma StartedHasDepsReady(t: UnitTable, ids: seq<UnitId>, states: seq<State>, picks: seq<Pick>, k: nat, u: UnitId, a: UnitId)
    requires Startable(t, Elements(ids)) && IsRun(t, ids, states, picks) && k <= |picks|
    requires u in t && a in t[u].deps.after && u in states[k].st
    requires states[k].st[u] == Starting || states[k].st[u].Started?
    ensures a in states[k].st && states[k].st[a] != NeverStarted
    ensures a in t[u].deps.requires_ ==> states[k].st[a].Started?
  {
    RunKeepsInv(t, ids, states, picks, k);
    AfterInTable(t, u);
    assert Ready(t, states[k].st, u);
    assert DepReady(t[u], a, states[k].st);
  }

  // ---------- every run ends ----------

  lemma {:induction false} RunWeighsLess(t: UnitTable, ids: seq<UnitId>, states: seq<State>, picks: seq<Pick>, w: Weights, k: nat)
    requires Startable(t, Elements(ids)) && IsRun(t, ids, states, picks) && t.Keys <= w.Keys && Potential(t, w) && k <= |picks|
    requires WellTyped(t, Init(t, ids))
    ensures WellTyped(t, states[k])
    ensures TotalWeight(t, w, states[k].acts) + k <= TotalWeight(t, w, Init(t, ids).acts)
  {
    RunKeepsInv(t, ids, states, picks, k);
    if k > 0 {
      var j := k - 1;
      RunWeighsLess(t, ids, states, picks, w, j);
      hide Inv;
      hide Startable;
      assert StepBy(t, Elements(ids), states[j], picks[j], states[j + 1]);
      StepWeighsLess(t, Elements(ids), w, states[j], picks[j].0, picks[j].1);
    }
  }

  /** There is a bound on the length of every run, whatever the schedule and whichever starts fail. */
  lemma RunsEnd(t: UnitTable, ids: seq<UnitId>) returns (bound: nat)
    requires Startable(t, Elements(ids)) && Acyclic(BeforeGraph(t))
    ensures forall states: seq<State>, picks: seq<Pick> :: IsRun(t, ids, states, picks) ==> |picks| <= bound
  {
    var w := WeightsExist(t);
    InitKeepsInv(t, ids);
    TotalIsNat(t, w, Init(t, ids).acts);
    bound := TotalWeight(t, w, Init(t, ids).acts);
    forall states: seq<State>, picks: seq<Pick> | IsRun(t, ids, states, picks) ensures |picks| <= bound {
      RunWeighsLess(t, ids, states, picks, w, |picks|);
      TotalIsNat(t, w, states[|picks|].acts);
    }
  }

  ghost predicate Drained(s: State) {
    forall i :: 0 <= i < |s.acts| ==> s.acts[i] == Done
  }

  /** A run that cannot go on has drained the pool: a task only ever waits for a unit that another one has locked. */
  lemma NeverStuck(s: State)
    requires !Drained(s)
    ensures exists i :: Enabled(s, i)
  {
    var i :| 0 <= i < |s.acts| && s.acts[i] != Done;
    if !Enabled(s, i) {
      var j :| 0 <= j < |s.acts| && s.acts[j].Locks(s.acts[i].u);
      assert Enabled(s, j);
    } else {
      assert Enabled(s, i);
    }
  }

  // ---------- startup is complete ----------

  /** The units that have failed to start, also if they were tried again, and are not started now. */
  function LeftFailed(s: State): set<UnitId> {
    set a | a in s.failed && !(a in s.st && s.st[a].Started?)
  }

  /** Neither the unit nor anything it comes after, over any number of steps, is among the failed ones. */
  ghost predicate NoFailureUpstream(t: UnitTable, failed: set<UnitId>, u: UnitId) {
    forall a :: Reaches(AfterGraph(t), u, a) ==> a !in failed
  }

  lemma UpstreamOfPredecessor(t: UnitTable, failed: set<UnitId>, u: UnitId, a: UnitId)
    requires u in t && a in t[u].deps.after && NoFailureUpstream(t, failed, u)
    ensures NoFailureUpstream(t, failed, a)
  {
    forall b | Reaches(AfterGraph(t), a, b) ensures b !in failed {
      assert Edge(AfterGraph(t), u, a);
      ReachesStep(AfterGraph(t), u, a, b);
    }
  }

  lemma NothingPending(t: UnitTable, s: State, u: UnitId)
    requires Drained(s)
    ensures !Pending(t, s, u)
  {
  }

  lemma NotForgotten(t: UnitTable, needed: set<UnitId>, s: State, u: UnitId)
    requires Startable(t, needed) && Inv(t, needed, s) && Drained(s)
    requires u in needed && u !in LeftFailed(s) && DepsStarted(t, s.st, u)
    ensures u in s.st && s.st[u].Started?
  {
    NothingPending(t, s, u);
  }

  /** By induction along the acyclic order: all predecessors are started, nothing is pending, so the unit is started. */
  lemma {:induction false} DrainedIsComplete(t: UnitTable, needed: set<UnitId>, s: State, rank: map<UnitId, nat>, u: UnitId)
    requires Startable(t, needed) && Inv(t, needed, s) && Drained(s) && RankedBy(AfterGraph(t), rank)
    requires u in needed && u in rank && NoFailureUpstream(t, LeftFailed(s), u)
    ensures u in s.st && s.st[u].Started?
    decreases rank[u]
  {
    hide Inv;
    hide NoFailureUpstream;
    hide Drained;
    hide Mirrored;
    hide Reaches;
    PredecessorsRank(t, needed, rank, u);
    forall a | a in t[u].deps.after ensures a in s.st && s.st[a].Started? {
      UpstreamOfPredecessor(t, LeftFailed(s), u, a);
      DrainedIsComplete(t, needed, s, rank, a);
    }
    UpstreamHasNotFailed(t, LeftFailed(s), u);
    NotForgotten(t, needed, s, u);
  }

  lemma UpstreamHasNotFailed(t: UnitTable, failed: set<UnitId>, u: UnitId)
    requires u in t && NoFailureUpstream(t, failed, u)
    ensures u !in failed
  {
    ReachesSelf(AfterGraph(t), u);
  }

  lemma PredecessorsRank(t: UnitTable, needed: set<UnitId>, rank: map<UnitId, nat>, u: UnitId)
    requires Startable(t, needed) && RankedBy(AfterGraph(t), rank) && u in needed
    ensures forall a :: a in t[u].deps.after ==> a in needed && a in rank && rank[a] < rank[u]
  {
    AfterInTable(t, u);
    forall a | a in t[u].deps.after ensures a in needed && a in rank && rank[a] < rank[u] {
      assert Edge(AfterGraph(t), u, a);
    }
  }

  /** In every schedule, once the pool is empty each needed unit is started unless it or something before it has failed for good. */
  lemma StartupCompletes(t: UnitTable, ids: seq<UnitId>, states: seq<State>, picks: seq<Pick>, u: UnitId)
    requires Startable(t, Elements(ids)) && Acyclic(BeforeGraph(t)) && IsRun(t, ids, states, picks)
    requires Drained(states[|picks|]) && u in ids && NoFailureUpstream(t, LeftFailed(states[|picks|]), u)
    ensures u in states[|picks|].st && states[|picks|].st[u].Started?
  {
    RunKeepsInv(t, ids, states, picks, |picks|);
    AfterIsAcyclic(t);
    RelGraphClosed(t, After);
    var rank := AcyclicHasRank(AfterGraph(t));
    DrainedIsComplete(t, Elements(ids), states[|picks|], rank, u);
  }

  /** The unit is started at the end of the run unless it, or something before it, failed to start. */
  ghost predicate StartedUnlessFailed(t: UnitTable, last: State, u: UnitId) {
    NoFailureUpstream(t, LeftFailed(last), u) ==> u in last.st && last.st[u].Started?
  }

  /** Every schedule that drains the pool has started every one of the ids that nothing failed before. */
  ghost predicate EveryRunCompletes(t: UnitTable, ids: seq<UnitId>)
    requires Closed(t)
  {
    forall states: seq<State>, picks: seq<Pick>, u :: IsRun(t, ids, states, picks) && Drained(states[|picks|]) && u in ids ==>
      StartedUnlessFailed(t, states[|picks|], u)
  }

  lemma AllRunsComplete(t: UnitTable, ids: seq<UnitId>)
    requires Startable(t, Elements(ids)) && Acyclic(BeforeGraph(t))
    ensures EveryRunCompletes(t, ids)
  {
    hide NoFailureUpstream;
    hide Drained;
    hide Acyclic;
    hide Mirrored;
    hide IsRun;
    forall states: seq<State>, picks: seq<Pick>, u | IsRun(t, ids, states, picks) && |states| == |picks| + 1
      && Drained(states[|picks|]) && u in ids
      ensures StartedUnlessFailed(t, states[|picks|], u)
    {
      if NoFailureUpstream(t, LeftFailed(states[|picks|]), u) {
        StartupCompletes(t, ids, states, picks, u);
      }
    }
    RunHasStates(t, ids);
  }

  lemma RunHasStates(t: UnitTable, ids: seq<UnitId>)
    requires Closed(t)
    ensures forall states: seq<State>, picks: seq<Pick> :: IsRun(t, ids, states, picks) ==> |states| == |picks| + 1
  {
  }
}
