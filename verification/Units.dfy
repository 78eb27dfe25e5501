/** The unit table: ids, the six dependency vectors, and what it means for a table to be well formed. */
module Units {

  datatype UnitIdKind = Target | Socket | Service

  datatype UnitId = UnitId(kind: UnitIdKind, name: string)

  /** The six dependency vectors of a unit, as an index. */
  datatype Rel = Wants | WantedBy | Requires | RequiredBy | Before | After

  function Mirror(r: Rel): Rel {
    match r
    case Wants => WantedBy
    case WantedBy => Wants
    case Requires => RequiredBy
    case RequiredBy => Requires
    case Before => After
    case After => Before
  }

  datatype Dependencies = Dependencies(
    wants: seq<UnitId>,
    wantedBy: seq<UnitId>,
    requires_: seq<UnitId>,
    requiredBy: seq<UnitId>,
    before: seq<UnitId>,
    after: seq<UnitId>)
  {
    function Get(r: Rel): seq<UnitId> {
      match r
      case Wants => wants
      case WantedBy => wantedBy
      case Requires => requires_
      case RequiredBy => requiredBy
      case Before => before
      case After => after
    }

    function Push(r: Rel, id: UnitId): Dependencies {
      match r
      case Wants => this.(wants := wants + [id])
      case WantedBy => this.(wantedBy := wantedBy + [id])
      case Requires => this.(requires_ := requires_ + [id])
      case RequiredBy => this.(requiredBy := requiredBy + [id])
      case Before => this.(before := before + [id])
      case After => this.(after := after + [id])
    }

    /** Everything that has to be started for this unit to start: what it comes after, wants or requires. */
    predicate Needs(id: UnitId) {
      id in after || id in wants || id in requires_
    }
  }

  datatype Specific =
    | ServiceSpecific(sockets: seq<UnitId>)
    | SocketSpecific(services: seq<UnitId>)
    | TargetSpecific

  datatype Unit = Unit(id: UnitId, deps: Dependencies, refsByName: seq<UnitId>, specific: Specific)

  function Listed(s: Specific): seq<UnitId> {
    match s
    case ServiceSpecific(sockets) => sockets
    case SocketSpecific(services) => services
    case TargetSpecific => []
  }

  /** A unit as its file declares it: it refers by name to everything in its six vectors and its list. */
  predicate AsParsed(u: Unit) {
    var d := u.deps;
    u.refsByName == d.wants + d.wantedBy + d.requires_ + d.requiredBy + d.before + d.after + Listed(u.specific)
  }

  type UnitTable = map<UnitId, Unit>

  // ---------- edges ----------

  /** `v` is in the vector `r` of unit `u`. */
  ghost predicate Has(t: UnitTable, u: UnitId, r: Rel, v: UnitId) {
    u in t && v in t[u].deps.Get(r)
  }

  // ---------- well-formedness ----------

  predicate KindMatches(k: UnitIdKind, s: Specific) {
    match k
    case Service => s.ServiceSpecific?
    case Socket => s.SocketSpecific?
    case Target => s.TargetSpecific?
  }

  /** Every unit is stored under its own id, and the id's kind is the kind of the unit. */
  ghost predicate WellKeyed(t: UnitTable) {
    forall id :: id in t ==> t[id].id == id && KindMatches(id.kind, t[id].specific)
  }

  /** A file name carries its kind as suffix, so two ids with the same name are the same id. */
  ghost predicate NamesUnique(ids: set<UnitId>) {
    forall a, b :: a in ids && b in ids && a.name == b.name ==> a == b
  }

  /** Every id in a dependency vector is in the table. */
  ghost predicate Closed(t: UnitTable) {
    forall u, r, v :: Has(t, u, r, v) ==> v in t
  }

  /** Dependencies go both ways: before/after, requires/required_by, wants/wanted_by. */
  ghost predicate Mirrored(t: UnitTable) {
    forall u, r, v :: Has(t, u, r, v) ==> Has(t, v, Mirror(r), u)
  }

  // ---------- sockets and services that name each other ----------

  ghost predicate ServiceLists(t: UnitTable, srvc: UnitId, sock: UnitId) {
    srvc in t && t[srvc].specific.ServiceSpecific? && sock in t[srvc].specific.sockets
  }

  ghost predicate SocketLists(t: UnitTable, sock: UnitId, srvc: UnitId) {
    sock in t && t[sock].specific.SocketSpecific? && srvc in t[sock].specific.services
  }

  /** Inside the table a service lists a socket exactly when the socket lists the service. */
  ghost predicate SocketsMirrored(t: UnitTable) {
    forall srvc, sock :: srvc in t && sock in t && srvc.kind == Service && sock.kind == Socket ==>
      (ServiceLists(t, srvc, sock) <==> SocketLists(t, sock, srvc))
  }
}
