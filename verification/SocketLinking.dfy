/** Matching sockets and services, by name or because one lists the other. */
module SocketLinking {
  import opened Units
  import opened Digraph
  import opened IdVectors
  import opened Pruning

  // ---------- one socket and one service ----------

  function LastDot(name: string): (i: int)
    ensures -1 <= i < |name|
    ensures i >= 0 ==> name[i] == '.'
    ensures forall k :: i < k < |name| ==> name[k] != '.'
  {
    if name == [] then -1
    else if name[|name| - 1] == '.' then |name| - 1
    else LastDot(name[..|name| - 1])
  }

  /** The name up to its last dot; empty if there is none. */
  function NameWithoutSuffix(name: string): string {
    var i := LastDot(name);
    if i < 0 then "" else name[..i]
  }

  /** Cut off is the part after the last dot, with the dot. */
  lemma SuffixIsCutOff(front: string, suffix: string)
    requires '.' !in suffix
    ensures NameWithoutSuffix(front + "." + suffix) == front && NameWithoutSuffix(suffix) == ""
  {
    var name := front + "." + suffix;
    assert name[|front|] == '.' && forall k :: |front| < k < |name| ==> name[k] in suffix;
    assert LastDot(name) == |front|;
  }

  predicate HasSocket(sockets: seq<UnitId>, name: string) {
    exists id :: id in sockets && id.name == name
  }

  /** A service and a socket belong together by name, or exactly one of them lists the other. */
  predicate ShouldLink(srvc: Unit, sock: Unit)
    requires srvc.specific.ServiceSpecific? && sock.specific.SocketSpecific?
  {
    || MatchesByName(srvc, sock)
    || ((sock.id in srvc.specific.sockets) != (srvc.id in sock.specific.services))
  }

  predicate MatchesByName(srvc: Unit, sock: Unit)
    requires srvc.specific.ServiceSpecific?
  {
    && NameWithoutSuffix(srvc.id.name) == NameWithoutSuffix(sock.id.name)
    && forall id :: id in srvc.specific.sockets ==> id.name != sock.id.name
  }

  function WithId(ids: seq<UnitId>, id: UnitId): (r: seq<UnitId>)
    ensures ids <= r && forall x :: x in r <==> x in ids || x == id
  {
    if id in ids then ids else ids + [id]
  }

  function LinkedService(srvc: Unit, sock: UnitId): Unit
    requires srvc.specific.ServiceSpecific?
  {
    srvc.(deps := DedupDeps(srvc.deps.Push(After, sock).Push(Requires, sock)),
      specific := ServiceSpecific(WithId(srvc.specific.sockets, sock)))
  }

  function LinkedSocket(sock: Unit, srvc: UnitId): Unit
    requires sock.specific.SocketSpecific?
  {
    sock.(deps := DedupDeps(sock.deps.Push(Before, srvc).Push(RequiredBy, srvc)),
      specific := SocketSpecific(WithId(sock.specific.services, srvc)))
  }

  /** Both tests in turn. After the first one has linked the pair the second one no longer applies. */
  method LinkIfMatching(srvc: Unit, sock: Unit) returns (srvc': Unit, sock': Unit, added: nat)
    requires srvc.specific.ServiceSpecific? && sock.specific.SocketSpecific?
    ensures added == if ShouldLink(srvc, sock) then 1 else 0
    ensures srvc' == if ShouldLink(srvc, sock) then LinkedService(srvc, sock.id) else srvc
    ensures sock' == if ShouldLink(srvc, sock) then LinkedSocket(sock, srvc.id) else sock
  {
    srvc', sock', added := srvc, sock, 0;
    if NameWithoutSuffix(srvc'.id.name) == NameWithoutSuffix(sock'.id.name)
      && !HasSocket(srvc'.specific.sockets, sock'.id.name)
    {
      srvc', sock' := LinkedService(srvc', sock'.id), LinkedSocket(sock', srvc'.id);
      added := added + 1;
    }
    if (sock'.id in srvc'.specific.sockets && srvc'.id !in sock'.specific.services)
      || (srvc'.id in sock'.specific.services && sock'.id !in srvc'.specific.sockets)
    {
      srvc', sock' := LinkedService(srvc', sock'.id), LinkedSocket(sock', srvc'.id);
      added := added + 1;
    }
  }

  // ---------- all of them ----------

  ghost predicate Linked(t: UnitTable, sock: UnitId, srvc: UnitId) {
    && sock in t && t[sock].specific.SocketSpecific?
    && srvc in t && t[srvc].specific.ServiceSpecific?
    && ShouldLink(t[srvc], t[sock])
  }

  /** Pairs of a socket and a service. */
  type SockSrvc = iset<(UnitId, UnitId)>

  /** The ordering and requirement edges of the linked pairs among `done`. */
  ghost predicate LinkEdge(t: UnitTable, done: SockSrvc, u: UnitId, r: Rel, v: UnitId) {
    || ((r == After || r == Requires) && (v, u) in done && Linked(t, v, u))
    || ((r == Before || r == RequiredBy) && (u, v) in done && Linked(t, u, v))
  }

  ghost predicate SameUnits(t: UnitTable, t': UnitTable) {
    && t'.Keys == t.Keys
    && forall u :: u in t ==>
      && t'[u].id == t[u].id && t'[u].refsByName == t[u].refsByName
      && KindMatches(u.kind, t[u].specific) && KindMatches(u.kind, t'[u].specific)
  }

  ghost predicate EdgesUpTo(t: UnitTable, t': UnitTable, done: SockSrvc) {
    forall u, r, v :: Has(t', u, r, v) <==> (Has(t, u, r, v) || LinkEdge(t, done, u, r, v))
  }

  ghost predicate ListsUpTo(t: UnitTable, t': UnitTable, done: SockSrvc) {
    && (forall srvc, sock :: ServiceLists(t', srvc, sock) <==>
         (ServiceLists(t, srvc, sock) || ((sock, srvc) in done && Linked(t, sock, srvc))))
    && (forall srvc, sock :: SocketLists(t', sock, srvc) <==>
         (SocketLists(t, sock, srvc) || ((sock, srvc) in done && Linked(t, sock, srvc))))
  }

  /** `t'` is `t` after the (socket, service) pairs `done` have been looked at. */
  ghost predicate LinkedUpTo(t: UnitTable, t': UnitTable, done: SockSrvc) {
    SameUnits(t, t') && EdgesUpTo(t, t', done) && ListsUpTo(t, t', done)
  }

  /** Whether a pair gets linked does not depend on the other pairs looked at before. */
  lemma LinkedIsStable(t: UnitTable, t': UnitTable, done: SockSrvc, sock: UnitId, srvc: UnitId)
    requires WellKeyed(t) && NamesUnique(t.Keys) && LinkedUpTo(t, t', done) && (sock, srvc) !in done
    requires sock in t && srvc in t && sock.kind == Socket && srvc.kind == Service
    ensures Linked(t', sock, srvc) <==> Linked(t, sock, srvc)
  {
    var before, now := t[srvc].specific.sockets, t'[srvc].specific.sockets;
    assert sock in now <==> ServiceLists(t', srvc, sock);
    assert srvc in t'[sock].specific.services <==> SocketLists(t', sock, srvc);
    assert sock in before <==> ServiceLists(t, srvc, sock);
    assert srvc in t[sock].specific.services <==> SocketLists(t, sock, srvc);
    forall id | id in now && id.name == sock.name ensures id in before {
      assert ServiceLists(t', srvc, id);
    }
    forall id | id in before ensures id in now {
      assert ServiceLists(t, srvc, id);
    }
  }

  /** The table with one pair linked. */
  function LinkPair(t: UnitTable, sock: UnitId, srvc: UnitId): UnitTable
    requires sock in t && srvc in t && t[sock].specific.SocketSpecific? && t[srvc].specific.ServiceSpecific?
  {
    t[srvc := LinkedService(t[srvc], sock)][sock := LinkedSocket(t[sock], srvc)]
  }

  lemma LinkPairEdges(t: UnitTable, sock: UnitId, srvc: UnitId)
    requires sock in t && srvc in t && t[sock].specific.SocketSpecific? && t[srvc].specific.ServiceSpecific?
    ensures forall u, r, v :: Has(LinkPair(t, sock, srvc), u, r, v) <==> (Has(t, u, r, v) || PairEdge(sock, srvc, u, r, v))
  {
    LinkedUnitEdges(t[srvc].deps, After, Requires, sock);
    LinkedUnitEdges(t[sock].deps, Before, RequiredBy, srvc);
    hide DedupDeps;
  }

  predicate PairEdge(sock: UnitId, srvc: UnitId, u: UnitId, r: Rel, v: UnitId) {
    || (u == srvc && v == sock && (r == After || r == Requires))
    || (u == sock && v == srvc && (r == Before || r == RequiredBy))
  }

  lemma LinkPairLists(t: UnitTable, sock: UnitId, srvc: UnitId)
    requires sock in t && srvc in t && t[sock].specific.SocketSpecific? && t[srvc].specific.ServiceSpecific?
    ensures var t' := LinkPair(t, sock, srvc);
      && t'.Keys == t.Keys
      && (forall u :: u in t ==> t'[u].id == t[u].id && t'[u].refsByName == t[u].refsByName)
      && (forall u :: u in t ==> (KindMatches(u.kind, t'[u].specific) <==> KindMatches(u.kind, t[u].specific)))
      && (forall s, k :: ServiceLists(t', s, k) <==> ServiceLists(t, s, k) || (s == srvc && k == sock))
      && (forall s, k :: SocketLists(t', k, s) <==> SocketLists(t, k, s) || (s == srvc && k == sock))
  {
    hide DedupDeps;
  }

  lemma LinkedUnitEdges(d: Dependencies, a: Rel, b: Rel, id: UnitId)
    requires a != b
    ensures forall q: Rel, v :: v in DedupDeps(d.Push(a, id).Push(b, id)).Get(q) <==>
      v in d.Get(q) || (v == id && (q == a || q == b))
  {
    forall q: Rel, v ensures v in DedupDeps(d.Push(a, id).Push(b, id)).Get(q) <==>
      v in d.Get(q) || (v == id && (q == a || q == b))
    {
      assert DedupDeps(d.Push(a, id).Push(b, id)).Get(q) == Dedup(d.Push(a, id).Push(b, id).Get(q));
      PushGet(d, a, id, q);
      PushGet(d.Push(a, id), b, id, q);
    }
  }

  lemma PushGet(d: Dependencies, r: Rel, id: UnitId, q: Rel)
    ensures d.Push(r, id).Get(q) == if q == r then d.Get(q) + [id] else d.Get(q)
  {
  }

  lemma EdgesGrow(t: UnitTable, t': UnitTable, done: SockSrvc, sock: UnitId, srvc: UnitId)
    requires EdgesUpTo(t, t', done) && Linked(t, sock, srvc) && SameUnits(t, t') && sock in t && srvc in t
    requires t'[sock].specific.SocketSpecific? && t'[srvc].specific.ServiceSpecific?
    ensures EdgesUpTo(t, LinkPair(t', sock, srvc), done + iset{(sock, srvc)})
  {
    hide Has;
    hide LinkPair;
    hide Linked;
    LinkPairEdges(t', sock, srvc);
  }

  lemma NotLinkedGrows(t: UnitTable, t': UnitTable, done: SockSrvc, sock: UnitId, srvc: UnitId)
    requires EdgesUpTo(t, t', done) && ListsUpTo(t, t', done) && !Linked(t, sock, srvc)
    ensures EdgesUpTo(t, t', done + iset{(sock, srvc)}) && ListsUpTo(t, t', done + iset{(sock, srvc)})
  {
    hide Has;
    hide ServiceLists;
    hide SocketLists;
    hide Linked;
  }

  lemma ListsGrow(t: UnitTable, t': UnitTable, done: SockSrvc, sock: UnitId, srvc: UnitId)
    requires ListsUpTo(t, t', done) && Linked(t, sock, srvc) && SameUnits(t, t') && sock in t && srvc in t
    requires t'[sock].specific.SocketSpecific? && t'[srvc].specific.ServiceSpecific?
    ensures ListsUpTo(t, LinkPair(t', sock, srvc), done + iset{(sock, srvc)}) && SameUnits(t, LinkPair(t', sock, srvc))
  {
    hide ServiceLists;
    hide SocketLists;
    hide LinkPair;
    hide Linked;
    LinkPairLists(t', sock, srvc);
  }

  /** Looking at one more pair. */
  lemma LinkedUpToGrows(t: UnitTable, t': UnitTable, t'': UnitTable, done: SockSrvc, sock: UnitId, srvc: UnitId)
    requires WellKeyed(t) && NamesUnique(t.Keys) && LinkedUpTo(t, t', done) && (sock, srvc) !in done
    requires sock in t && srvc in t && sock.kind == Socket && srvc.kind == Service
    requires t'' == if Linked(t', sock, srvc) then LinkPair(t', sock, srvc) else t'
    ensures LinkedUpTo(t, t'', done + iset{(sock, srvc)})
  {
    hide Linked;
    hide LinkPair;
    hide EdgesUpTo;
    hide ListsUpTo;
    LinkedIsStable(t, t', done, sock, srvc);
    if Linked(t', sock, srvc) {
      EdgesGrow(t, t', done, sock, srvc);
      ListsGrow(t, t', done, sock, srvc);
    } else {
      NotLinkedGrows(t, t', done, sock, srvc);
    }
  }

  // ---------- the loops ----------

  ghost function LinkedServices(t: UnitTable, sock: UnitId, among: seq<UnitId>): set<UnitId> {
    set s | s in among && Linked(t, sock, s)
  }

  ghost function PairsOf(sock: UnitId, services: seq<UnitId>): SockSrvc {
    iset s | s in services :: (sock, s)
  }

  /** One service for a socket that is out of the table. While the service is worked on it is taken out as well. */
  method LinkOne(ghost t0: UnitTable, t: UnitTable, ghost done: SockSrvc, sock: UnitId, sockUnit: Unit, srvc: UnitId)
    returns (t': UnitTable, sockUnit': Unit, added: nat)
    requires WellKeyed(t0) && NamesUnique(t0.Keys) && sock !in t && LinkedUpTo(t0, t[sock := sockUnit], done)
    requires sock in t0 && sock.kind == Socket && srvc in t0 && srvc.kind == Service && (sock, srvc) !in done
    ensures sock !in t' && LinkedUpTo(t0, t'[sock := sockUnit'], done + iset{(sock, srvc)})
    ensures added == if Linked(t0, sock, srvc) then 1 else 0
  {
    hide Linked;
    hide ShouldLink;
    hide EdgesUpTo;
    hide ListsUpTo;
    hide NamesUnique;
    ghost var view := t[sock := sockUnit];
    assert srvc in view && view[srvc] == t[srvc];
    var srvcUnit := t[srvc];
    var rest := t - {srvc};
    srvcUnit, sockUnit', added := LinkIfMatching(srvcUnit, sockUnit);
    t' := rest[srvc := srvcUnit];
    assert t'[sock := sockUnit'] == view[srvc := srvcUnit][sock := sockUnit'];
    LinkStep(t0, view, t'[sock := sockUnit'], done, sock, srvc);
  }

  /** All services for one socket, which is out of the table meanwhile. */
  method LinkSocket(ghost t0: UnitTable, t: UnitTable, ghost done: SockSrvc, sock: UnitId, services: seq<UnitId>)
    returns (t': UnitTable, counter: nat)
    requires WellKeyed(t0) && NamesUnique(t0.Keys) && LinkedUpTo(t0, t, done)
    requires sock in t0 && sock.kind == Socket && forall s :: (sock, s) !in done
    requires NoRepeat(services) && forall s :: s in services ==> s in t0 && s.kind == Service
    ensures LinkedUpTo(t0, t', done + PairsOf(sock, services))
    ensures counter == |LinkedServices(t0, sock, services)|
  {
    hide Linked;
    hide EdgesUpTo;
    hide ListsUpTo;
    hide LinkedServices;
    hide WellKeyed;
    hide NamesUnique;
    var sockUnit := t[sock];
    t' := t - {sock};
    counter := 0;
    assert t'[sock := sockUnit] == t;
    assert done + PairsOf(sock, []) == done;
    NoneLinked(t0, sock);
    for i := 0 to |services|
      invariant sock !in t' && LinkedUpTo(t0, t'[sock := sockUnit], done + PairsOf(sock, services[..i]))
      invariant counter == |LinkedServices(t0, sock, services[..i])|
    {
      hide LinkedUpTo;
      PairsOfGrows(sock, services, i, done);
      CountStep(t0, sock, services, i);
      var added;
      t', sockUnit, added := LinkOne(t0, t', done + PairsOf(sock, services[..i]), sock, sockUnit, services[i]);
      counter := counter + added;
    }
    assert services[..|services|] == services;
    t' := t'[sock := sockUnit];
  }

  lemma PairsOfGrows(sock: UnitId, services: seq<UnitId>, i: nat, done: SockSrvc)
    requires i < |services| && NoRepeat(services) && forall s :: (sock, s) !in done
    ensures (sock, services[i]) !in done + PairsOf(sock, services[..i])
    ensures done + PairsOf(sock, services[..i]) + iset{(sock, services[i])} == done + PairsOf(sock, services[..i + 1])
  {
    assert services[..i + 1] == services[..i] + [services[i]];
  }

  lemma LinkStep(t0: UnitTable, view: UnitTable, view': UnitTable, done: SockSrvc, sock: UnitId, srvc: UnitId)
    requires WellKeyed(t0) && NamesUnique(t0.Keys) && LinkedUpTo(t0, view, done) && (sock, srvc) !in done
    requires sock in t0 && srvc in t0 && sock.kind == Socket && srvc.kind == Service
    requires view[srvc].specific.ServiceSpecific? && view[sock].specific.SocketSpecific?
    requires var link := ShouldLink(view[srvc], view[sock]);
      view' == view[srvc := if link then LinkedService(view[srvc], sock) else view[srvc]]
        [sock := if link then LinkedSocket(view[sock], srvc) else view[sock]]
    ensures LinkedUpTo(t0, view', done + iset{(sock, srvc)})
    ensures Linked(t0, sock, srvc) <==> ShouldLink(view[srvc], view[sock])
  {
    LinkedIsStable(t0, view, done, sock, srvc);
    LinkedUpToGrows(t0, view, view', done, sock, srvc);
  }

  lemma NoneLinked(t0: UnitTable, sock: UnitId)
    ensures |LinkedServices(t0, sock, [])| == 0
  {
    assert LinkedServices(t0, sock, []) == {};
  }

  lemma CountStep(t0: UnitTable, sock: UnitId, services: seq<UnitId>, i: nat)
    requires i < |services| && NoRepeat(services)
    ensures |LinkedServices(t0, sock, services[..i + 1])| ==
      |LinkedServices(t0, sock, services[..i])| + if Linked(t0, sock, services[i]) then 1 else 0
  {
    hide Linked;
    var before, now := LinkedServices(t0, sock, services[..i]), LinkedServices(t0, sock, services[..i + 1]);
    assert services[..i + 1] == services[..i] + [services[i]];
    if Linked(t0, sock, services[i]) {
      assert now == before + {services[i]};
    } else {
      assert now == before;
    }
  }

  /** All services the socket gets linked to. */
  ghost function AllLinked(t: UnitTable, sock: UnitId): set<UnitId> {
    set s | s in t && Linked(t, sock, s)
  }

  ghost predicate OneServiceEach(t: UnitTable) {
    forall sock :: sock in t ==> |AllLinked(t, sock)| <= 1
  }

  ghost function PairsOfAll(socks: set<UnitId>, services: seq<UnitId>): SockSrvc {
    iset k, s | k in socks && s in services :: (k, s)
  }

  /** The verdict and, on Ok, the edges and lists do not depend on the order of the sockets or the services. */
  method ApplySocketsToServices(t: UnitTable) returns (ok: bool, t': UnitTable)
    requires WellKeyed(t) && NamesUnique(t.Keys)
    ensures ok <==> OneServiceEach(t)
    ensures ok ==> SameUnits(t, t')
    ensures ok ==> forall u, r, v :: Has(t', u, r, v) <==> (Has(t, u, r, v) || NewLinkEdge(t, u, r, v))
    ensures ok ==> forall srvc, sock :: ServiceLists(t', srvc, sock) <==> (ServiceLists(t, srvc, sock) || Linked(t, sock, srvc))
    ensures ok ==> forall srvc, sock :: SocketLists(t', sock, srvc) <==> (SocketLists(t, sock, srvc) || Linked(t, sock, srvc))
  {
    hide Linked;
    hide EdgesUpTo;
    hide ListsUpTo;
    hide Has;
    hide NamesUnique;
    hide AllLinked;
    hide LinkedServices;
    var services := SetToSeq(set s | s in t && s.kind == Service);
    t' := t;
    var socks := set k | k in t && k.kind == Socket;
    var todo := socks;
    NothingDone(t, services);
    while todo != {}
      invariant todo <= socks
      invariant LinkedUpTo(t, t', PairsOfAll(socks - todo, services))
      invariant forall k :: k in socks - todo ==> |AllLinked(t, k)| <= 1
    {
      var sock :| sock in todo;
      ghost var done := PairsOfAll(socks - todo, services);
      var counter;
      t', counter := LinkSocket(t, t', done, sock, services);
      SocketDone(socks, todo, sock, services);
      CountIsAll(t, sock, services);
      if counter > 1 {
        return false, t';
      }
      todo := todo - {sock};
    }
    ok := true;
    assert socks - todo == socks;
    EverythingDone(t, t', socks, services);
    OnlySocketsLink(t);
  }

  /** The ordering and requirement edges of the linked pairs. */
  ghost predicate NewLinkEdge(t: UnitTable, u: UnitId, r: Rel, v: UnitId) {
    || ((r == After || r == Requires) && Linked(t, v, u))
    || ((r == Before || r == RequiredBy) && Linked(t, u, v))
  }

  lemma NothingDone(t: UnitTable, services: seq<UnitId>)
    requires WellKeyed(t)
    ensures forall socks: set<UnitId> :: LinkedUpTo(t, t, PairsOfAll(socks - socks, services))
  {
    forall socks: set<UnitId> ensures LinkedUpTo(t, t, PairsOfAll(socks - socks, services)) {
      assert PairsOfAll(socks - socks, services) == iset{};
      hide Has;
      hide Linked;
    }
  }

  lemma SocketDone(socks: set<UnitId>, todo: set<UnitId>, sock: UnitId, services: seq<UnitId>)
    requires sock in todo && todo <= socks
    ensures PairsOfAll(socks - todo, services) + PairsOf(sock, services) == PairsOfAll(socks - (todo - {sock}), services)
    ensures forall s :: (sock, s) !in PairsOfAll(socks - todo, services)
  {
  }

  lemma CountIsAll(t: UnitTable, sock: UnitId, services: seq<UnitId>)
    requires WellKeyed(t) && forall s :: s in services <==> s in t && s.kind == Service
    ensures LinkedServices(t, sock, services) == AllLinked(t, sock)
  {
    hide ShouldLink;
  }

  lemma OnlySocketsLink(t: UnitTable)
    requires WellKeyed(t)
    ensures forall k :: k in t && k.kind != Socket ==> |AllLinked(t, k)| <= 1
  {
    forall k | k in t && k.kind != Socket ensures |AllLinked(t, k)| <= 1 {
      hide ShouldLink;
      assert AllLinked(t, k) == {};
    }
  }

  lemma EverythingDone(t: UnitTable, t': UnitTable, socks: set<UnitId>, services: seq<UnitId>)
    requires WellKeyed(t) && LinkedUpTo(t, t', PairsOfAll(socks, services))
    requires forall s :: s in services <==> s in t && s.kind == Service
    requires forall k :: k in socks <==> k in t && k.kind == Socket
    ensures forall u, r, v :: Has(t', u, r, v) <==> (Has(t, u, r, v) || NewLinkEdge(t, u, r, v))
    ensures forall srvc, sock :: ServiceLists(t', srvc, sock) <==> (ServiceLists(t, srvc, sock) || Linked(t, sock, srvc))
    ensures forall srvc, sock :: SocketLists(t', sock, srvc) <==> (SocketLists(t, sock, srvc) || Linked(t, sock, srvc))
  {
    hide Has;
    hide ServiceLists;
    hide SocketLists;
    forall k, s | Linked(t, k, s) ensures (k, s) in PairsOfAll(socks, services) {
      hide ShouldLink;
    }
    hide Linked;
  }
}
