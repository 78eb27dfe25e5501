/** Removing a unit together with every unit that names it, directly or through others. */
module RemoveUnits {
  import opened Units
  import opened Digraph
  import opened IdVectors
  import opened StartSubgraph
  import opened Pruning
  import opened DependencyResolving
  import opened SocketLinking
  import opened Loading

  // ---------- one id ----------

  function DropDeps(d: Dependencies, gone: set<UnitId>): (r: Dependencies)
    ensures forall rel :: r.Get(rel) == FilterOut(d.Get(rel), gone)
  {
    Dependencies(FilterOut(d.wants, gone), FilterOut(d.wantedBy, gone), FilterOut(d.requires_, gone),
      FilterOut(d.requiredBy, gone), FilterOut(d.before, gone), FilterOut(d.after, gone))
  }

  function DropUnit(u: Unit, gone: set<UnitId>): Unit {
    u.(deps := DropDeps(u.deps, gone))
  }

  /** The table without the units `gone` and without any edge to them. */
  function DropIds(t: UnitTable, gone: set<UnitId>): UnitTable {
    map u | u in t && u !in gone :: DropUnit(t[u], gone)
  }

  lemma DropIdsFacts(t: UnitTable, gone: set<UnitId>)
    ensures forall x :: x in DropIds(t, gone) <==> x in t && x !in gone
    ensures forall x :: x in DropIds(t, gone) ==> DropIds(t, gone)[x].refsByName == t[x].refsByName
  {
  }

  lemma DropDepsTwice(d: Dependencies, a: set<UnitId>, b: set<UnitId>)
    ensures DropDeps(DropDeps(d, a), b) == DropDeps(d, a + b)
  {
    forall rel: Rel ensures DropDeps(DropDeps(d, a), b).Get(rel) == DropDeps(d, a + b).Get(rel) {
      FilterOutTwice(d.Get(rel), a, b);
    }
    EqualDeps(DropDeps(DropDeps(d, a), b), DropDeps(d, a + b));
  }

  lemma DropIdsTwice(t: UnitTable, a: set<UnitId>, b: set<UnitId>)
    ensures DropIds(DropIds(t, a), b) == DropIds(t, a + b)
  {
    hide DropUnit;
    forall u | u in t ensures DropUnit(DropUnit(t[u], a), b) == DropUnit(t[u], a + b) {
      DropUnitTwice(t[u], a, b);
    }
  }

  lemma DropUnitTwice(u: Unit, a: set<UnitId>, b: set<UnitId>)
    ensures DropUnit(DropUnit(u, a), b) == DropUnit(u, a + b)
  {
    DropDepsTwice(u.deps, a, b);
  }

  lemma DropOne(d: Dependencies, id: UnitId)
    ensures RemoveId(d, id) == DropDeps(d, {id})
  {
    forall rel: Rel ensures RemoveId(d, id).Get(rel) == DropDeps(d, {id}).Get(rel) {
      FilterOutOne(d.Get(rel), id);
    }
    EqualDeps(RemoveId(d, id), DropDeps(d, {id}));
  }

  method RemoveSingleUnit(rm: UnitId, t: UnitTable) returns (t': UnitTable)
    ensures t' == DropIds(t, {rm})
  {
    hide DropUnit;
    t' := t;
    var todo := t.Keys;
    while todo != {}
      invariant todo <= t.Keys && t'.Keys == t.Keys
      invariant forall u :: u in t ==> t'[u] == if u in todo then t[u] else DropUnit(t[u], {rm})
    {
      var u :| u in todo;
      var cleaned := RemoveIdFromUnit(t'[u], rm);
      t' := t'[u := cleaned];
      todo := todo - {u};
    }
    t' := t' - {rm};
  }

  /** Dependencies::remove_id on all six vectors. */
  method RemoveIdFromUnit(u: Unit, rm: UnitId) returns (u': Unit)
    ensures u' == DropUnit(u, {rm})
  {
    var wants := RemoveFromVec(u.deps.wants, rm);
    var wantedBy := RemoveFromVec(u.deps.wantedBy, rm);
    var req := RemoveFromVec(u.deps.requires_, rm);
    var requiredBy := RemoveFromVec(u.deps.requiredBy, rm);
    var before := RemoveFromVec(u.deps.before, rm);
    var after := RemoveFromVec(u.deps.after, rm);
    u' := u.(deps := Dependencies(wants, wantedBy, req, requiredBy, before, after));
    DropOne(u.deps, rm);
  }

  // ---------- the recursion ----------

  /** An edge to every unit that is mentioned by name. */
  ghost function RefGraph(t: UnitTable): Graph {
    map u | u in t :: t[u].refsByName
  }

  /** The unit and all units that name it, directly or through other units. */
  ghost function RemovalSet(t: UnitTable, rm: UnitId): set<UnitId> {
    {rm} + set x | x in t && Reaches(RefGraph(t), x, rm)
  }

  ghost predicate OnlyReferrers(t: UnitTable, rm: UnitId, gone: set<UnitId>) {
    rm in gone && forall x :: x in gone ==> x == rm || (x in t && Reaches(RefGraph(t), x, rm))
  }

  ghost predicate NotNamed(t: UnitTable, ids: set<UnitId>) {
    forall u, x :: u in t && x in ids ==> x !in t[u].refsByName
  }

  method DirectReferrers(t: UnitTable, rm: UnitId) returns (ids: seq<UnitId>)
    ensures forall u :: u in ids <==> u in t && u != rm && rm in t[u].refsByName
  {
    ids := [];
    var todo := t.Keys;
    while todo != {}
      invariant todo <= t.Keys
      invariant forall u :: u in ids <==> u in t && u !in todo && u != rm && rm in t[u].refsByName
    {
      var u :| u in todo;
      if u != rm && rm in t[u].refsByName {
        ids := ids + [u];
      }
      todo := todo - {u};
    }
  }

  /** Even when an id has been removed in the meantime the recursion ends: then the table has shrunk. */
  method RemoveWithDependingUnits(rm: UnitId, t: UnitTable) returns (t': UnitTable)
    ensures t' == DropIds(t, RemovalSet(t, rm))
    ensures NotNamed(t', RemovalSet(t, rm))
    decreases 2 * |t| + if rm in t then 0 else 1
  {
    hide Reaches;
    hide DropIds;
    hide RemovalSet;
    hide OnlyReferrers;
    hide NotNamed;
    t' := RemoveSingleUnit(rm, t);
    var next := DirectReferrers(t', rm);
    ghost var gone := {rm};
    DropShrinks(t, {rm});
    DropIdsFacts(t, {rm});
    OnlyItselfGone(t, rm, t');
    for i := 0 to |next|
      invariant t' == DropIds(t, gone) && OnlyReferrers(t, rm, gone) && NotNamed(t', gone - {rm})
      invariant forall k :: 0 <= k < i ==> next[k] in gone
      invariant rm in gone
    {
      var id := next[i];
      assert id in next;
      DropShrinks(t, gone);
      DropIdsFacts(t, gone);
      ghost var before := t';
      t' := RemoveWithDependingUnits(id, t');
      GrowGone(t, rm, gone, id, before, t', RemovalSet(before, id));
      gone := gone + RemovalSet(before, id);
    }
    GoneIsComplete(t, rm, gone, t', next);
  }

  lemma OnlyItselfGone(t: UnitTable, rm: UnitId, t': UnitTable)
    ensures OnlyReferrers(t, rm, {rm}) && NotNamed(t', {rm} - {rm})
  {
  }

  lemma DropShrinks(t: UnitTable, gone: set<UnitId>)
    ensures |DropIds(t, gone)| <= |t|
    ensures forall x :: x in gone && x in t ==> |DropIds(t, gone)| < |t|
  {
    var t' := DropIds(t, gone);
    assert t'.Keys <= t.Keys;
    SubsetSize(t'.Keys, t.Keys);
    forall x | x in gone && x in t ensures |t'| < |t| {
      ShrinksBy(t.Keys, t'.Keys, x);
    }
  }

  lemma GrowGone(t: UnitTable, rm: UnitId, gone: set<UnitId>, id: UnitId, before: UnitTable, t': UnitTable, more: set<UnitId>)
    requires before == DropIds(t, gone) && OnlyReferrers(t, rm, gone) && NotNamed(before, gone - {rm})
    requires id in t && rm in t[id].refsByName
    requires more == RemovalSet(before, id) && t' == DropIds(before, more) && NotNamed(t', more)
    ensures t' == DropIds(t, gone + more) && OnlyReferrers(t, rm, gone + more) && NotNamed(t', gone + more - {rm})
    ensures id in gone + more
  {
    hide DropIds;
    hide Reaches;
    DropIdsTwice(t, gone, more);
    DropIdsFacts(t, gone);
    DropIdsFacts(before, more);
    ReferrersReach(t, rm, gone, id);
    forall u, x | u in t' && x in gone + more - {rm} ensures x !in t'[u].refsByName {
      if x !in more {
        assert x in gone - {rm} && u in before;
      }
    }
  }

  /** Whatever reaches a unit that names `rm` reaches `rm`, also before other units were removed. */
  lemma ReferrersReach(t: UnitTable, rm: UnitId, gone: set<UnitId>, id: UnitId)
    requires id in t && rm in t[id].refsByName
    ensures forall x :: x in RemovalSet(DropIds(t, gone), id) ==> x in t && Reaches(RefGraph(t), x, rm)
  {
    var before := DropIds(t, gone);
    DropIdsFacts(t, gone);
    hide DropIds;
    hide Reaches;
    forall x | x in RemovalSet(before, id) ensures x in t && Reaches(RefGraph(t), x, rm) {
      assert Edge(RefGraph(t), id, rm);
      ReachesSelf(RefGraph(t), rm);
      ReachesStep(RefGraph(t), id, rm, rm);
      if x != id {
        ReachesInLarger(RefGraph(before), RefGraph(t), x, id);
        ReachesTransitive(RefGraph(t), x, id, rm);
      }
    }
  }

  lemma GoneIsComplete(t: UnitTable, rm: UnitId, gone: set<UnitId>, t': UnitTable, next: seq<UnitId>)
    requires t' == DropIds(t, gone) && OnlyReferrers(t, rm, gone) && NotNamed(t', gone - {rm})
    requires forall u :: u in next <==> u in DropIds(t, {rm}) && u != rm && rm in DropIds(t, {rm})[u].refsByName
    requires forall k :: 0 <= k < |next| ==> next[k] in gone
    ensures gone == RemovalSet(t, rm) && NotNamed(t', gone)
  {
    DropIdsFacts(t, {rm});
    DropIdsFacts(t, gone);
    hide DropIds;
    hide Reaches;
    forall u, x | u in t' && x in gone ensures x !in t'[u].refsByName {
      if x != rm {
        assert x in gone - {rm};
      }
    }
    forall x | x in t && Reaches(RefGraph(t), x, rm) ensures x in gone {
      if x !in gone {
        NothingLeadsBack(t, gone, t');
        ReachesStaysOut(RefGraph(t), gone, x, rm);
      }
    }
  }

  lemma NothingLeadsBack(t: UnitTable, gone: set<UnitId>, t': UnitTable)
    requires t' == DropIds(t, gone) && NotNamed(t', gone)
    ensures forall a, b :: a !in gone && Edge(RefGraph(t), a, b) ==> b !in gone
  {
    DropIdsFacts(t, gone);
    hide DropIds;
    forall a, b | a !in gone && Edge(RefGraph(t), a, b) ensures b !in gone {
      assert a in t';
    }
  }

  // ---------- what removal keeps ----------

  lemma RemovalIsInduced(t: UnitTable, gone: set<UnitId>)
    requires Closed(t)
    ensures Induced(t, DropIds(t, gone), t.Keys - gone)
  {
    var t' := DropIds(t, gone);
    forall u, r, v ensures Has(t', u, r, v) <==> Has(t, u, r, v) && u in t.Keys - gone && v in t.Keys - gone {
      if u in t' {
        assert t'[u].deps.Get(r) == FilterOut(t[u].deps.Get(r), gone);
        assert Has(t, u, r, v) ==> v in t;
      }
    }
  }

  lemma RemovedAreNotNamed(t: UnitTable, rm: UnitId)
    ensures NotNamed(DropIds(t, RemovalSet(t, rm)), RemovalSet(t, rm))
  {
    var gone := RemovalSet(t, rm);
    DropIdsFacts(t, gone);
    forall u, x | u in DropIds(t, gone) && x in gone ensures x !in t[u].refsByName {
      if x in t[u].refsByName {
        assert Edge(RefGraph(t), u, x);
        ReachesSelf(RefGraph(t), rm);
        ReachesStep(RefGraph(t), u, x, rm);
      }
    }
  }

  /** The remaining table is closed and mirrored; no dependency vector and no name of a remaining unit points outside. */
  lemma RemovalKeepsShape(t: UnitTable, rm: UnitId)
    requires WellKeyed(t) && Closed(t) && Mirrored(t)
    ensures var gone := RemovalSet(t, rm); var t' := DropIds(t, gone);
      && WellKeyed(t') && Closed(t') && Mirrored(t')
      && (forall u, r, v :: Has(t', u, r, v) ==> v !in gone)
      && NotNamed(t', gone)
      && (forall srvc, sock :: ServiceLists(t', srvc, sock) <==> ServiceLists(t, srvc, sock) && srvc !in gone)
      && (forall srvc, sock :: SocketLists(t', sock, srvc) <==> SocketLists(t, sock, srvc) && sock !in gone)
  {
    var gone := RemovalSet(t, rm);
    var t' := DropIds(t, gone);
    RemovedAreNotNamed(t, rm);
    hide RemovalSet;
    RemovalIsInduced(t, gone);
    InducedKeepsClosed(t, t', t.Keys - gone);
    InducedKeepsMirrored(t, t', t.Keys - gone);
    RemovalKeepsLists(t, gone);
  }

  lemma RemovalKeepsLists(t: UnitTable, gone: set<UnitId>)
    requires WellKeyed(t)
    ensures WellKeyed(DropIds(t, gone))
    ensures forall srvc, sock :: ServiceLists(DropIds(t, gone), srvc, sock) <==> ServiceLists(t, srvc, sock) && srvc !in gone
    ensures forall srvc, sock :: SocketLists(DropIds(t, gone), sock, srvc) <==> SocketLists(t, sock, srvc) && sock !in gone
  {
  }

  // ---------- lists of sockets and services ----------

  /** One unit lists the other as its socket or as its service. */
  ghost predicate Lists(t: UnitTable, u: UnitId, v: UnitId) {
    ServiceLists(t, u, v) || SocketLists(t, u, v)
  }

  /** After the removal no remaining unit lists a removed one. */
  ghost predicate NoneDangles(t: UnitTable, rm: UnitId) {
    forall u, v :: Lists(DropIds(t, RemovalSet(t, rm)), u, v) ==> v !in RemovalSet(t, rm)
  }

  /** The lists themselves are not cleaned, so this removal leaves none dangling exactly if each listing unit goes as well. */
  lemma NoneDanglesIff(t: UnitTable, rm: UnitId)
    requires WellKeyed(t)
    ensures NoneDangles(t, rm) <==>
      forall u, v :: Lists(t, u, v) && v in RemovalSet(t, rm) ==> u in RemovalSet(t, rm)
  {
    hide RemovalSet;
    hide ServiceLists;
    hide SocketLists;
    var gone := RemovalSet(t, rm);
    RemovalKeepsLists(t, gone);
    forall u, v ensures Lists(DropIds(t, gone), u, v) <==> Lists(t, u, v) && u !in gone {
    }
    hide Lists;
  }

  /**
   * What a caller can check: no removal ever leaves a dangling list if and only if every unit names, directly or through
   * others, the units it lists. Units that were only linked because their names match do not.
   */
  lemma NoRemovalDangles(t: UnitTable)
    requires WellKeyed(t)
    ensures (forall rm :: NoneDangles(t, rm)) <==> forall u, v :: Lists(t, u, v) ==> Reaches(RefGraph(t), u, v)
  {
    hide WellKeyed;
    hide NoneDangles;
    hide Lists;
    if forall u, v :: Lists(t, u, v) ==> Reaches(RefGraph(t), u, v) {
      forall rm ensures NoneDangles(t, rm) {
        NoneDanglesIff(t, rm);
        forall u, v | Lists(t, u, v) && v in RemovalSet(t, rm) ensures u in RemovalSet(t, rm) {
          ListingGoesToo(t, rm, u, v);
        }
      }
    }
    if forall rm :: NoneDangles(t, rm) {
      forall u, v | Lists(t, u, v) ensures Reaches(RefGraph(t), u, v) {
        assert NoneDangles(t, v);
        NoneDanglesIff(t, v);
        ReachesSelf(RefGraph(t), v);
      }
    }
  }

  lemma ListingGoesToo(t: UnitTable, rm: UnitId, u: UnitId, v: UnitId)
    requires Lists(t, u, v) && Reaches(RefGraph(t), u, v) && v in RemovalSet(t, rm)
    ensures u in RemovalSet(t, rm)
  {
    ReachesSelf(RefGraph(t), rm);
    ReachesTransitive(RefGraph(t), u, v, rm);
  }

  /** In particular if every unit names what it lists, as a parsed unit does. */
  lemma NamedListsStayClean(t: UnitTable, rm: UnitId)
    requires WellKeyed(t) && forall u, v :: Lists(t, u, v) ==> v in t[u].refsByName
    ensures NoneDangles(t, rm)
  {
    hide WellKeyed;
    hide NoneDangles;
    forall u, v | Lists(t, u, v) ensures Reaches(RefGraph(t), u, v) {
      assert Edge(RefGraph(t), u, v);
      ReachesSelf(RefGraph(t), v);
      ReachesStep(RefGraph(t), u, v, v);
    }
    NoRemovalDangles(t);
    assert NoneDangles(t, rm);
  }

  lemma ParsedListsAreNamed(t: UnitTable)
    requires forall u :: u in t ==> AsParsed(t[u])
    ensures forall u, v :: Lists(t, u, v) ==> v in t[u].refsByName
  {
    forall u, v | Lists(t, u, v) ensures v in t[u].refsByName {
      assert v in Listed(t[u].specific);
    }
  }

  /** A service and a socket whose files say nothing but have matching names: as declared, and as linked. */
  function NamesakesDeclared(srvc: UnitId, sock: UnitId): UnitTable {
    map[
      srvc := Unit(srvc, Dependencies([], [], [], [], [], []), [], ServiceSpecific([])),
      sock := Unit(sock, Dependencies([], [], [], [], [], []), [], SocketSpecific([]))
    ]
  }

  function LinkedByName(srvc: UnitId, sock: UnitId): UnitTable {
    map[
      srvc := Unit(srvc, Dependencies([], [], [sock], [], [], [sock]), [], ServiceSpecific([sock])),
      sock := Unit(sock, Dependencies([], [], [], [srvc], [srvc], []), [], SocketSpecific([srvc]))
    ]
  }

  ghost predicate Namesakes(srvc: UnitId, sock: UnitId) {
    srvc.kind == Service && sock.kind == Socket && NameWithoutSuffix(srvc.name) == NameWithoutSuffix(sock.name)
  }

  lemma DeclaredNamesakes(srvc: UnitId, sock: UnitId)
    requires Namesakes(srvc, sock)
    ensures var t := NamesakesDeclared(srvc, sock);
      && WellKeyed(t) && Closed(t) && (forall u :: u in t ==> AsParsed(t[u]))
      && (forall u, r, v :: !Has(t, u, r, v) && !SocketTargetEdge(t, u, r, v))
      && (forall u, v :: !ServiceLists(t, u, v) && !SocketLists(t, u, v))
  {
  }

  lemma NamesakesLink(srvc: UnitId, sock: UnitId)
    requires Namesakes(srvc, sock)
    ensures forall k, s :: Linked(NamesakesDeclared(srvc, sock), k, s) <==> k == sock && s == srvc
  {
    hide NameWithoutSuffix;
  }

  lemma LinkedNamesakes(srvc: UnitId, sock: UnitId)
    requires Namesakes(srvc, sock)
    ensures var t := LinkedByName(srvc, sock);
      && (forall u, r, v :: Has(t, u, r, v) <==>
           (u == srvc && v == sock && (r == Requires || r == After)) || (u == sock && v == srvc && (r == RequiredBy || r == Before)))
      && (forall u, v :: ServiceLists(t, u, v) <==> u == srvc && v == sock)
      && (forall u, v :: SocketLists(t, u, v) <==> u == sock && v == srvc)
      && SameUnits(NamesakesDeclared(srvc, sock), t)
  {
  }

  lemma NamesakesAreFilled(srvc: UnitId, sock: UnitId)
    requires Namesakes(srvc, sock)
    ensures Filled(NamesakesDeclared(srvc, sock), LinkedByName(srvc, sock))
  {
    hide Has;
    hide ServiceLists;
    hide SocketLists;
    hide SocketTargetEdge;
    hide Linked;
    hide SameUnits;
    hide NamesakesDeclared;
    hide LinkedByName;
    hide AsParsed;
    DeclaredNamesakes(srvc, sock);
    NamesakesLink(srvc, sock);
    LinkedNamesakes(srvc, sock);
  }

  /**
   * Lists are left dangling in tables that come out of unit files: a socket that was linked because its name matches is
   * removed without the service, which goes on listing it.
   */
  lemma RemovalLeavesListedSocket(srvc: UnitId, sock: UnitId)
    requires Namesakes(srvc, sock)
    ensures var declared, t := NamesakesDeclared(srvc, sock), LinkedByName(srvc, sock);
      && (forall u :: u in declared ==> AsParsed(declared[u])) && Filled(declared, t) && WellFormed(t)
    ensures var t := LinkedByName(srvc, sock); var t' := DropIds(t, RemovalSet(t, sock));
      srvc in t' && sock !in t' && ServiceLists(t', srvc, sock)
  {
    hide WellFormed;
    hide AsParsed;
    hide Filled;
    DeclaredNamesakes(srvc, sock);
    NamesakesAreFilled(srvc, sock);
    FilledIsWellFormed(NamesakesDeclared(srvc, sock), LinkedByName(srvc, sock));
    ListedSocketGoesAlone(srvc, sock);
  }

  lemma ListedSocketGoesAlone(srvc: UnitId, sock: UnitId)
    requires Namesakes(srvc, sock)
    ensures var t := LinkedByName(srvc, sock); var t' := DropIds(t, RemovalSet(t, sock));
      srvc in t' && sock !in t' && ServiceLists(t', srvc, sock)
  {
    var t := LinkedByName(srvc, sock);
    var gone := RemovalSet(t, sock);
    if srvc in gone {
      var w := ReachesUnfold(RefGraph(t), srvc, sock);
    }
    RemovalKeepsLists(t, gone);
  }
}
