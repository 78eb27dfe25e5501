/** From parsed units to the table the service manager runs on: fill, prune, drop unused sockets, check. */
module Loading {
  import opened Units
  import opened IdVectors
  import opened Pruning
  import opened DependencyResolving
  import opened SocketLinking

  /** The edges of the filled table: each declared edge on both sides, sockets.target, and the new socket links. */
  ghost predicate FilledEdge(t: UnitTable, u: UnitId, r: Rel, v: UnitId) {
    Has(t, u, r, v) || Has(t, v, Mirror(r), u) || SocketTargetEdge(t, u, r, v) || NewLinkEdge(t, u, r, v)
  }

  /** What filling makes of a table. */
  ghost predicate Filled(t: UnitTable, t': UnitTable) {
    && SameUnits(t, t')
    && (forall u, r, v :: Has(t', u, r, v) <==> FilledEdge(t, u, r, v))
    && (forall srvc, sock :: ServiceLists(t', srvc, sock) <==> (ServiceLists(t, srvc, sock) || Linked(t, sock, srvc)))
    && (forall srvc, sock :: SocketLists(t', sock, srvc) <==> (SocketLists(t, sock, srvc) || Linked(t, sock, srvc)))
  }

  /** Error exactly when some socket would be added to more than one service. */
  method FillDependencies(t: UnitTable) returns (ok: bool, t': UnitTable)
    requires WellKeyed(t) && NamesUnique(t.Keys) && Closed(t)
    ensures ok <==> OneServiceEach(t)
    ensures ok ==> Filled(t, t') && Deduped(t')
  {
    hide Has;
    hide Closed;
    hide Deduped;
    hide Linked;
    hide NamesUnique;
    hide SocketTargetEdge;
    hide ServiceLists;
    hide SocketLists;
    hide AllLinked;
    var mirrored := MirrorDependencies(t);
    var targeted := AddSocketTargetRelations(mirrored);
    SameConfLinks(t, targeted);
    SameConfTargets(t, mirrored);
    ok, t' := ApplySocketsToServices(targeted);
    if ok {
      ghost var linked := t';
      AddedEdgesStayIn(t, t');
      t' := DedupAll(t');
      SameConfLists(linked, t');
    }
  }

  lemma AddedEdgesStayIn(t: UnitTable, t': UnitTable)
    requires Closed(t) && t'.Keys == t.Keys && forall u, r, v :: Has(t', u, r, v) ==> FilledEdge(t, u, r, v)
    ensures Closed(t')
  {
    hide ShouldLink;
    forall u, r, v | Has(t', u, r, v) ensures v in t' {
      assert FilledEdge(t, u, r, v);
    }
  }

  lemma SameConfLinks(t: UnitTable, t': UnitTable)
    requires SameConf(t, t') && WellKeyed(t)
    ensures WellKeyed(t') && (OneServiceEach(t') <==> OneServiceEach(t))
    ensures forall sock, srvc :: Linked(t', sock, srvc) <==> Linked(t, sock, srvc)
    ensures forall srvc, sock :: ServiceLists(t', srvc, sock) <==> ServiceLists(t, srvc, sock)
    ensures forall srvc, sock :: SocketLists(t', sock, srvc) <==> SocketLists(t, sock, srvc)
  {
    forall sock, srvc ensures Linked(t', sock, srvc) <==> Linked(t, sock, srvc) {
      if sock in t && srvc in t {
        assert t'[sock].id == t[sock].id && t'[srvc].id == t[srvc].id;
      }
    }
    forall sock ensures AllLinked(t', sock) == AllLinked(t, sock) {
      hide Linked;
    }
  }

  lemma SameConfTargets(t: UnitTable, t': UnitTable)
    requires SameConf(t, t')
    ensures forall u, r, v :: SocketTargetEdge(t', u, r, v) <==> SocketTargetEdge(t, u, r, v)
  {
  }

  lemma SameConfLists(t: UnitTable, t': UnitTable)
    requires SameConf(t, t')
    ensures forall srvc, sock :: ServiceLists(t', srvc, sock) <==> ServiceLists(t, srvc, sock)
    ensures forall srvc, sock :: SocketLists(t', sock, srvc) <==> SocketLists(t, sock, srvc)
  {
  }

  // ---------- what filling establishes ----------

  lemma FilledIsClosed(t: UnitTable, t': UnitTable)
    requires Closed(t) && Filled(t, t')
    ensures Closed(t')
  {
    hide ShouldLink;
    forall u, r, v | Has(t', u, r, v) ensures v in t' {
      assert FilledEdge(t, u, r, v);
    }
  }

  lemma FilledIsMirrored(t: UnitTable, t': UnitTable)
    requires Filled(t, t')
    ensures Mirrored(t')
  {
    hide Linked;
    hide Has;
    forall u, r, v | Has(t', u, r, v) ensures Has(t', v, Mirror(r), u) {
      assert FilledEdge(t, u, r, v);
      assert FilledEdge(t, v, Mirror(r), u);
    }
  }

  lemma FilledSocketsMirror(t: UnitTable, t': UnitTable)
    requires WellKeyed(t) && Filled(t, t')
    ensures WellKeyed(t') && SocketsMirrored(t')
  {
    forall srvc, sock | srvc in t' && sock in t' && srvc.kind == Service && sock.kind == Socket
      ensures ServiceLists(t', srvc, sock) <==> SocketLists(t', sock, srvc)
    {
      assert t[srvc].id == srvc && t[sock].id == sock;
      assert Linked(t, sock, srvc) <==> ShouldLink(t[srvc], t[sock]);
    }
  }

  lemma FillingEstablishesShape(t: UnitTable, t': UnitTable)
    requires WellKeyed(t) && Closed(t) && Filled(t, t')
    ensures WellKeyed(t') && Closed(t') && Mirrored(t') && SocketsMirrored(t')
  {
    FilledIsClosed(t, t');
    FilledIsMirrored(t, t');
    FilledSocketsMirror(t, t');
  }

  /** In a filled table no socket and service are left to link, so filling again adds nothing. */
  lemma FillingTwice(t: UnitTable, t': UnitTable, t'': UnitTable)
    requires WellKeyed(t) && NamesUnique(t.Keys) && Filled(t, t') && Filled(t', t'')
    ensures forall u, r, v :: Has(t'', u, r, v) <==> Has(t', u, r, v)
    ensures forall srvc, sock :: ServiceLists(t'', srvc, sock) <==> ServiceLists(t', srvc, sock)
    ensures forall srvc, sock :: SocketLists(t'', sock, srvc) <==> SocketLists(t', sock, srvc)
  {
    NothingLeftToLink(t, t');
    FilledIsMirrored(t, t');
    TargetEdgesAreThere(t, t');
    hide Linked;
    hide Has;
    hide SocketTargetEdge;
    forall u, r, v ensures Has(t'', u, r, v) <==> Has(t', u, r, v) {
      assert FilledEdge(t', u, r, v) <==> Has(t', u, r, v) by {
        if Has(t', v, Mirror(r), u) {
          assert Has(t', u, Mirror(Mirror(r)), v);
        }
      }
    }
  }

  lemma TargetEdgesAreThere(t: UnitTable, t': UnitTable)
    requires Filled(t, t')
    ensures forall u, r, v :: SocketTargetEdge(t', u, r, v) ==> Has(t', u, r, v)
  {
    hide Linked;
    hide Has;
    forall u, r, v | SocketTargetEdge(t', u, r, v) ensures Has(t', u, r, v) {
      assert SocketTargetEdge(t, u, r, v);
      assert FilledEdge(t, u, r, v);
    }
  }

  lemma NothingLeftToLink(t: UnitTable, t': UnitTable)
    requires WellKeyed(t) && NamesUnique(t.Keys) && Filled(t, t')
    ensures forall sock, srvc :: !Linked(t', sock, srvc)
  {
    FilledSocketsMirror(t, t');
    forall sock, srvc ensures !Linked(t', sock, srvc) {
      if Linked(t', sock, srvc) {
        assert srvc.kind == Service && sock.kind == Socket && t'[srvc].id == srvc && t'[sock].id == sock;
        assert ServiceLists(t', srvc, sock) <==> SocketLists(t', sock, srvc);
        assert MatchesByName(t'[srvc], t'[sock]);
        assert !ServiceLists(t', srvc, sock);
        assert !Linked(t, sock, srvc);
        var id :| id in t[srvc].specific.sockets && id.name == sock.name;
        assert ServiceLists(t, srvc, id);
      }
    }
  }

  lemma TargetsListNothing(t: UnitTable)
    requires WellKeyed(t) && forall u :: u in t ==> u.kind == Target
    ensures forall u, v :: !ServiceLists(t, u, v) && !SocketLists(t, u, v) && !Linked(t, u, v)
    ensures forall u, r, v :: !SocketTargetEdge(t, u, r, v)
  {
  }

  /** For targets, filling only makes every edge visible on both sides. */
  lemma TargetsFilled(t: UnitTable, t': UnitTable)
    requires WellKeyed(t) && WellKeyed(t') && SameUnits(t, t') && forall u :: u in t ==> u.kind == Target
    requires forall u, r, v :: Has(t', u, r, v) <==> Has(t, u, r, v) || Has(t, v, Mirror(r), u)
    ensures Filled(t, t')
  {
    TargetsListNothing(t);
    assert t'.Keys == t.Keys;
    TargetsListNothing(t');
    hide Has;
    hide ServiceLists;
    hide SocketLists;
    hide Linked;
    hide SocketTargetEdge;
    hide WellKeyed;
    hide SameUnits;
  }

  // ---------- the whole pipeline ----------

  /** The units a loaded table keeps: needed by the target in the filled table, and no sockets without a service. */
  ghost predicate Kept(filled: UnitTable, target: UnitId, id: UnitId) {
    id in NeededIds(filled, target) && !UnusedSocket(PruneUnit(filled[id], NeededIds(filled, target)))
  }

  /** A needed socket is kept exactly if one of the services it lists is needed too; any other needed unit is kept. */
  lemma KeptExactly(filled: UnitTable, target: UnitId, id: UnitId)
    ensures Kept(filled, target, id) <==> id in NeededIds(filled, target) && (filled[id].specific.SocketSpecific? ==>
      exists srvc :: SocketLists(filled, id, srvc) && srvc in NeededIds(filled, target))
  {
    var keep := NeededIds(filled, target);
    if id in keep && filled[id].specific.SocketSpecific? {
      var services := Filter(filled[id].specific.services, keep);
      assert services != [] ==> services[0] in services && SocketLists(filled, id, services[0]);
      assert forall srvc :: SocketLists(filled, id, srvc) && srvc in keep ==> srvc in services;
    }
  }

  /** A table that startup, shutdown and stopping can rely on. */
  ghost predicate WellFormed(t: UnitTable) {
    WellKeyed(t) && Closed(t) && Mirrored(t) && SocketsMirrored(t)
  }

  /**
   * Like the original the method relies on a unit with the target's name; without one it would panic.
   * The loaded table keeps exactly the needed units and, of all edges that filling makes, those between them, each
   * once. Services and sockets go on listing each other, as they were declared or linked.
   */
  method LoadAllUnits(t: UnitTable, target: UnitId) returns (ok: bool, loaded: UnitTable, ghost filled: UnitTable)
    requires WellKeyed(t) && NamesUnique(t.Keys) && Closed(t) && target in t
    ensures ok <==> OneServiceEach(t)
    ensures ok ==> WellFormed(loaded)
    ensures ok ==> Filled(t, filled) && forall id :: id in loaded <==> Kept(filled, target, id)
    ensures ok ==> forall u, r, v :: Has(loaded, u, r, v) <==> (FilledEdge(t, u, r, v) && u in loaded && v in loaded)
    ensures ok ==> forall srvc, sock :: ServiceLists(loaded, srvc, sock) <==>
      ((ServiceLists(t, srvc, sock) || Linked(t, sock, srvc)) && srvc in loaded && sock in loaded)
    ensures ok ==> forall srvc, sock :: SocketLists(loaded, sock, srvc) <==>
      ((SocketLists(t, sock, srvc) || Linked(t, sock, srvc)) && sock in loaded && srvc in NeededIds(filled, target))
    ensures ok ==> forall u :: u in loaded ==> u in t && loaded[u].refsByName == t[u].refsByName
    ensures ok ==> Deduped(loaded)
  {
    hide Closed;
    hide Linked;
    hide Has;
    hide OneServiceEach;
    hide ServiceLists;
    hide SocketLists;
    hide NeededIds;
    hide Deduped;
    hide WellFormed;
    hide Kept;
    var full;
    ok, full := FillDependencies(t);
    filled, loaded := full, full;
    if ok {
      FilledIsWellFormed(t, full);
      loaded := PruneFilled(full, target);
    }
  }

  lemma FilledIsWellFormed(t: UnitTable, t': UnitTable)
    requires WellKeyed(t) && Closed(t) && Filled(t, t')
    ensures WellFormed(t')
  {
    FillingEstablishesShape(t, t');
  }

  /** The two pruning passes on the filled table. */
  method PruneFilled(full: UnitTable, target: UnitId) returns (loaded: UnitTable)
    requires WellFormed(full) && NamesUnique(full.Keys) && target in full
    ensures WellFormed(loaded)
    ensures forall id :: id in loaded <==> Kept(full, target, id)
    ensures forall u, r, v :: Has(loaded, u, r, v) <==> (Has(full, u, r, v) && u in loaded && v in loaded)
    ensures forall srvc, sock :: ServiceLists(loaded, srvc, sock) <==>
      (ServiceLists(full, srvc, sock) && srvc in loaded && sock in loaded)
    ensures forall srvc, sock :: SocketLists(loaded, sock, srvc) <==>
      (SocketLists(full, sock, srvc) && sock in loaded && srvc in NeededIds(full, target))
    ensures forall u :: u in loaded ==> u in full && loaded[u].refsByName == full[u].refsByName
    ensures Deduped(loaded)
  {
    hide Closed;
    hide Mirrored;
    hide SocketsMirrored;
    hide Has;
    hide ServiceLists;
    hide SocketLists;
    hide PruneUnit;
    hide Deduped;
    OnlyUnitNamed(full, target);
    ghost var keep := NeededIds(full, target);
    var found;
    found, loaded := PruneUnits(target.name, full);
    assert Named(full, target.name, target);
    assert loaded == PruneTo(full, keep);
    PruningKeepsShape(full, target);
    PruneIsInduced(full, keep);
    PruneDedups(full, keep);
    ghost var pruned := loaded;
    loaded := DropUnusedSockets(loaded);
    InducedTwice(full, pruned, loaded, keep, (set u | u in pruned && !UnusedSocket(pruned[u])));
    PruningKeepsListing(full, keep);
    ListsOfUsed(pruned, loaded);
  }

  lemma OnlyUnitNamed(t: UnitTable, target: UnitId)
    requires NamesUnique(t.Keys) && target in t
    ensures forall t': UnitTable, id :: t'.Keys == t.Keys && Named(t', target.name, id) ==> id == target
  {
  }

  lemma InducedTwice(t: UnitTable, t': UnitTable, t'': UnitTable, keep: set<UnitId>, keep': set<UnitId>)
    requires Induced(t, t', keep) && Induced(t', t'', keep')
    ensures forall u, r, v :: Has(t'', u, r, v) <==> (Has(t, u, r, v) && u in keep && u in keep' && v in keep && v in keep')
    ensures t''.Keys == t.Keys * keep * keep'
  {
    hide Has;
  }

  /** Only a socket without a service is dropped, so every service keeps its list, and every socket that stays. */
  lemma ListsOfUsed(t: UnitTable, t': UnitTable)
    requires forall srvc, sock :: ServiceLists(t, srvc, sock) ==> sock in t
    requires forall u :: u in t' <==> u in t && !UnusedSocket(t[u])
    requires forall u :: u in t' ==> t'[u].specific == t[u].specific
    requires forall srvc, sock :: ServiceLists(t', srvc, sock) && sock in t ==> sock in t'
    ensures forall srvc, sock :: ServiceLists(t', srvc, sock) <==> ServiceLists(t, srvc, sock) && srvc in t' && sock in t'
    ensures forall srvc, sock :: SocketLists(t', sock, srvc) <==> SocketLists(t, sock, srvc) && sock in t'
  {
    forall srvc, sock ensures ServiceLists(t', srvc, sock) <==> ServiceLists(t, srvc, sock) && srvc in t' && sock in t' {
      if srvc in t' {
        assert srvc in t && t'[srvc].specific == t[srvc].specific;
        assert ServiceLists(t', srvc, sock) <==> ServiceLists(t, srvc, sock);
      }
    }
  }
}
