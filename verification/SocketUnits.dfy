/** The Listen settings of a socket unit: four buckets merged back into the order of the file. */
module SocketUnits {
  import opened Wrappers

  import opened UnitParser

  datatype Transport = Stream | Datagram | Sequential | Fifo

  datatype SocketKind = SocketKind(transport: Transport, addr: string)

  type Numbered = (nat, SocketKind)

  function Key(transport: Transport): string {
    match transport
    case Stream => "LISTENSTREAM"
    case Datagram => "LISTENDATAGRAM"
    case Sequential => "LISTENSEQUENTIALPACKET"
    case Fifo => "LISTENFIFO"
  }

  predicate IsListenKey(key: string) {
    key == Key(Stream) || key == Key(Datagram) || key == Key(Sequential) || key == Key(Fifo)
  }

  function TransportOf(key: string): Transport
    requires IsListenKey(key)
  {
    if key == Key(Stream) then Stream
    else if key == Key(Datagram) then Datagram
    else if key == Key(Sequential) then Sequential
    else Fifo
  }

  lemma KeysDiffer(t: Transport, u: Transport)
    ensures Key(t) == Key(u) <==> t == u
  {
    assert |Key(Stream)| == 12 && |Key(Datagram)| == 14 && |Key(Sequential)| == 22 && |Key(Fifo)| == 10;
  }

  /** The sockets in the order of the file, each with the number of its entry. */
  ghost function Listens(entries: seq<Entry>): seq<Numbered> {
    if entries == [] then []
    else
      var n := |entries| - 1;
      Listens(entries[..n]) +
      if IsListenKey(entries[n].0) then [(n, SocketKind(TransportOf(entries[n].0), entries[n].1))] else []
  }

  function Kinds(xs: seq<Numbered>): seq<SocketKind> {
    seq(|xs|, i requires 0 <= i < |xs| => xs[i].1)
  }

  function AllOf(transport: Transport, bucket: seq<(nat, string)>): seq<Numbered> {
    seq(|bucket|, i requires 0 <= i < |bucket| => (bucket[i].0, SocketKind(transport, bucket[i].1)))
  }

  /** The four buckets one after the other. */
  ghost function Merged(entries: seq<Entry>): seq<Numbered> {
    AllOf(Stream, Bucket(entries, Key(Stream))) + AllOf(Datagram, Bucket(entries, Key(Datagram)))
    + AllOf(Sequential, Bucket(entries, Key(Sequential))) + AllOf(Fifo, Bucket(entries, Key(Fifo)))
  }

  // ---------- sorting ----------

  function Insert(x: Numbered, s: seq<Numbered>): seq<Numbered> {
    if s == [] || x.0 <= s[0].0 then [x] + s else [s[0]] + Insert(x, s[1..])
  }

  function SortByNumber(s: seq<Numbered>): seq<Numbered> {
    if s == [] then [] else Insert(s[0], SortByNumber(s[1..]))
  }

  predicate Ascending(s: seq<Numbered>) {
    forall i, j :: 0 <= i < j < |s| ==> s[i].0 <= s[j].0
  }

  predicate StrictlyAscending(s: seq<Numbered>) {
    forall i, j :: 0 <= i < j < |s| ==> s[i].0 < s[j].0
  }

  lemma {:induction false} InsertElements(x: Numbered, s: seq<Numbered>)
    ensures multiset(Insert(x, s)) == multiset{x} + multiset(s)
  {
    if s != [] && x.0 > s[0].0 {
      InsertElements(x, s[1..]);
      assert s == [s[0]] + s[1..];
    }
  }

  lemma {:induction false} InsertKeeps(x: Numbered, s: seq<Numbered>)
    requires Ascending(s)
    ensures Ascending(Insert(x, s))
  {
    if s != [] && x.0 > s[0].0 {
      InsertKeeps(x, s[1..]);
      InsertElements(x, s[1..]);
      var rest := Insert(x, s[1..]);
      forall i | 0 <= i < |rest| ensures s[0].0 <= rest[i].0 {
        assert rest[i] in multiset(rest);
      }
      hide Insert;
    }
  }

  lemma {:induction false} SortSorts(s: seq<Numbered>)
    ensures Ascending(SortByNumber(s)) && multiset(SortByNumber(s)) == multiset(s)
  {
    if s != [] {
      SortSorts(s[1..]);
      InsertKeeps(s[0], SortByNumber(s[1..]));
      InsertElements(s[0], SortByNumber(s[1..]));
      assert s == [s[0]] + s[1..];
    }
  }

  lemma HeadsAgree(a: seq<Numbered>, b: seq<Numbered>)
    requires Ascending(a) && StrictlyAscending(b) && multiset(a) == multiset(b) && a != [] && b != []
    ensures a[0] == b[0]
  {
    assert a[0] in multiset(b) && b[0] in multiset(a);
    var i :| 0 <= i < |b| && b[i] == a[0];
    var j :| 0 <= j < |a| && a[j] == b[0];
  }

  lemma TailsAgree(a: seq<Numbered>, b: seq<Numbered>)
    requires multiset(a) == multiset(b) && a != [] && b != [] && a[0] == b[0]
    ensures multiset(a[1..]) == multiset(b[1..])
  {
    assert a == [a[0]] + a[1..] && b == [b[0]] + b[1..];
    assert multiset(a[1..]) == multiset(a) - multiset{a[0]} && multiset(b[1..]) == multiset(b) - multiset{b[0]};
  }

  /** A strictly ascending sequence is the only ascending arrangement of its elements. */
  lemma {:induction false} OneArrangement(a: seq<Numbered>, b: seq<Numbered>)
    requires Ascending(a) && StrictlyAscending(b) && multiset(a) == multiset(b)
    ensures a == b
  {
    assert |multiset(a)| == |a| && |multiset(b)| == |b|;
    if a != [] {
      HeadsAgree(a, b);
      TailsAgree(a, b);
      OneArrangement(a[1..], b[1..]);
      assert a == [a[0]] + a[1..] && b == [b[0]] + b[1..];
    }
  }

  // ---------- the buckets hold what the file lists ----------

  lemma AllOfMore(transport: Transport, bucket: seq<(nat, string)>, more: seq<(nat, string)>)
    ensures AllOf(transport, bucket + more) == AllOf(transport, bucket) + AllOf(transport, more)
  {
  }

  lemma MergedGrows(t: Transport, entries: seq<Entry>)
    requires entries != []
    ensures var n := |entries| - 1;
      multiset(AllOf(t, Bucket(entries, Key(t)))) == multiset(AllOf(t, Bucket(entries[..n], Key(t))))
        + if entries[n].0 == Key(t) then multiset{(n, SocketKind(t, entries[n].1))} else multiset{}
  {
    var n := |entries| - 1;
    var more := if entries[n].0 == Key(t) then [(n, entries[n].1)] else [];
    AllOfMore(t, Bucket(entries[..n], Key(t)), more);
    assert AllOf(t, more) == if entries[n].0 == Key(t) then [(n, SocketKind(t, entries[n].1))] else [];
  }

  lemma {:induction false} MergedHoldsListens(entries: seq<Entry>)
    ensures multiset(Merged(entries)) == multiset(Listens(entries))
  {
    if entries != [] {
      MergedHoldsListens(entries[..|entries| - 1]);
      hide Bucket;
      MergedGrows(Stream, entries);
      MergedGrows(Datagram, entries);
      MergedGrows(Sequential, entries);
      MergedGrows(Fifo, entries);
      KeysDiffer(Stream, Datagram);
      KeysDiffer(Stream, Sequential);
      KeysDiffer(Stream, Fifo);
      KeysDiffer(Datagram, Sequential);
      KeysDiffer(Datagram, Fifo);
      KeysDiffer(Sequential, Fifo);
      hide Key;
      hide AllOf;
    }
  }

  lemma {:induction false} ListensAscend(entries: seq<Entry>)
    ensures StrictlyAscending(Listens(entries)) && forall i :: 0 <= i < |Listens(entries)| ==> Listens(entries)[i].0 < |entries|
  {
    if entries != [] {
      ListensAscend(entries[..|entries| - 1]);
    }
  }

  /** Sorting the merged buckets by entry number gives back the order of the file. */
  lemma SortRestoresFileOrder(entries: seq<Entry>)
    ensures SortByNumber(Merged(entries)) == Listens(entries)
  {
    SortSorts(Merged(entries));
    MergedHoldsListens(entries);
    ListensAscend(entries);
    OneArrangement(SortByNumber(Merged(entries)), Listens(entries));
  }

  // ---------- the parser ----------

  /** Moves the values of one bucket, first to last, to the end of the list. */
  method MoveAll(section: Section, transport: Transport, kinds: seq<Numbered>) returns (kinds': seq<Numbered>)
    ensures kinds' == kinds + AllOf(transport, if Key(transport) in section then section[Key(transport)] else [])
  {
    kinds' := kinds;
    if Key(transport) in section {
      var bucket := section[Key(transport)];
      for i := 0 to |bucket|
        invariant kinds' == kinds + AllOf(transport, bucket[..i])
      {
        kinds' := kinds' + [(bucket[i].0, SocketKind(transport, bucket[i].1))];
        AllOfMore(transport, bucket[..i], [bucket[i]]);
        assert bucket[..i + 1] == bucket[..i] + [bucket[i]];
      }
      assert bucket[..|bucket|] == bucket;
    }
  }

  /** A path, absolute or relative to the working directory. */
  predicate IsUnixAddr(addr: string) {
    "/" <= addr || "./" <= addr
  }

  /** Which strings parse as an IPv4 or IPv6 socket address is not modelled: `ip` is any set of strings. */
  predicate IsAddr(kind: SocketKind, ip: iset<string>) {
    IsUnixAddr(kind.addr) || ((kind.transport.Stream? || kind.transport.Datagram?) && kind.addr in ip)
  }

  ghost predicate AllAddrs(kinds: seq<SocketKind>, ip: iset<string>) {
    forall i :: 0 <= i < |kinds| ==> IsAddr(kinds[i], ip)
  }

  /** The address of one socket: a fifo and a sequential socket take a path only, the others an IP address as well. */
  method Accepts(kind: SocketKind, ip: iset<string>) returns (ok: bool)
    ensures ok <==> IsAddr(kind, ip)
  {
    var isPath := StartsWith(kind.addr, '/') || (StartsWith(kind.addr, '.') && StartsWith(kind.addr[1..], '/'));
    assert kind.addr != "" ==> kind.addr == [kind.addr[0]] + kind.addr[1..];
    match kind.transport {
      case Fifo => return isPath;
      case Sequential => return isPath;
      case Stream => return isPath || kind.addr in ip;
      case Datagram => return isPath || kind.addr in ip;
    }
  }

  /** The values of the four Listen keys, restored to the order of the file, whichever keys it mixes. */
  method MergeListens(section: Section, ghost entries: seq<Entry>) returns (kinds: seq<SocketKind>)
    requires IsSectionOf(section, entries)
    ensures kinds == Kinds(Listens(entries))
  {
    hide AllOf;
    hide Key;
    hide IsSectionOf;
    hide SortByNumber;
    hide Listens;
    hide Merged;
    var numbered := MoveAll(section, Stream, []);
    numbered := MoveAll(section, Datagram, numbered);
    numbered := MoveAll(section, Sequential, numbered);
    numbered := MoveAll(section, Fifo, numbered);
    MergedBuckets(section, entries, numbered);
    SortRestoresFileOrder(entries);
    kinds := Kinds(SortByNumber(numbered));
  }

  /** The first socket whose address its transport does not take is an error. */
  ghost predicate FirstBadAddr(kinds: seq<SocketKind>, ip: iset<string>, addr: string) {
    exists i :: 0 <= i < |kinds| && !IsAddr(kinds[i], ip) && kinds[i].addr == addr && AllAddrs(kinds[..i], ip)
  }

  method CheckAddrs(kinds: seq<SocketKind>, ip: iset<string>) returns (r: Result<seq<SocketKind>>)
    ensures r.Ok? <==> AllAddrs(kinds, ip)
    ensures r.Ok? ==> r.value == kinds
    ensures r.Err? ==> r.error.UnknownSocketAddr? && FirstBadAddr(kinds, ip, r.error.addr)
  {
    hide IsAddr;
    var sockets: seq<SocketKind> := [];
    for i := 0 to |kinds|
      invariant sockets == kinds[..i] && AllAddrs(kinds[..i], ip)
    {
      var ok := Accepts(kinds[i], ip);
      if !ok {
        return Err(UnknownSocketAddr(kinds[i].addr));
      }
      sockets := sockets + [kinds[i]];
    }
    assert kinds[..|kinds|] == kinds;
    return Ok(sockets);
  }

  // ---------- the other settings of the section ----------

  function Seconds(vec: seq<(nat, string)>): seq<string> {
    seq(|vec|, i requires 0 <= i < |vec| => vec[i].1)
  }

  /** The values of a key in the order of the file. */
  function ValuesOf(section: Section, key: string): seq<string> {
    if key in section then Seconds(section[key]) else []
  }

  /** The values that the file gives a key, first to last. */
  ghost function Given(entries: seq<Entry>, key: string): seq<string> {
    if entries == [] then []
    else
      var n := |entries| - 1;
      Given(entries[..n], key) + if entries[n].0 == key then [entries[n].1] else []
  }

  lemma {:induction false} BucketIsGiven(entries: seq<Entry>, key: string)
    ensures Seconds(Bucket(entries, key)) == Given(entries, key)
  {
    if entries != [] {
      var n := |entries| - 1;
      BucketIsGiven(entries[..n], key);
      var more := if entries[n].0 == key then [(n, entries[n].1)] else [];
      assert Seconds(Bucket(entries[..n], key) + more) == Seconds(Bucket(entries[..n], key)) + Seconds(more);
    }
  }

  /** Repeated settings count together, whatever stands between them. */
  lemma ValuesAreGiven(section: Section, entries: seq<Entry>, key: string)
    requires IsSectionOf(section, entries)
    ensures ValuesOf(section, key) == Given(entries, key)
  {
    BucketIsGiven(entries, key);
  }

  const EXEC_KEYS: set<string> :=
    {"USER", "GROUP", "STANDARDOUTPUT", "STANDARDERROR", "SUPPLEMENTARYGROUPS", "ENVIRONMENT"}

  const SOCKET_KEYS: set<string> :=
    {"FILEDESCRIPTORNAME", "SERVICE", Key(Stream), Key(Datagram), Key(Sequential), Key(Fifo)}

  predicate SupportedStdio(text: string) {
    "file:" <= text || "append:" <= text
  }

  function TooMany(section: Section, key: string, name: string): Option<Error> {
    var values := ValuesOf(section, key);
    if |values| > 1 then Some(SettingTooManyValues(name, values)) else None
  }

  /** Both outputs are reported under the name of the first. */
  function StdioError(section: Section, key: string, name: string): Option<Error> {
    var values := ValuesOf(section, key);
    if |values| > 1 then Some(SettingTooManyValues(name, values))
    else if |values| == 1 && !SupportedStdio(values[0]) then Some(UnsupportedSetting("StandardOutput: " + values[0]))
    else None
  }

  function OrElse(a: Option<Error>, b: Option<Error>): Option<Error> {
    if a.Some? then a else b
  }

  /** The first error among the exec settings; `badEnv` is any set of texts that do not parse as an environment. */
  function ExecError(section: Section, badEnv: iset<string>): Option<Error> {
    var environment := ValuesOf(section, "ENVIRONMENT");
    OrElse(TooMany(section, "USER", "User"),
      OrElse(TooMany(section, "GROUP", "Group"),
        OrElse(StdioError(section, "STANDARDOUTPUT", "Standardoutput"),
          OrElse(StdioError(section, "STANDARDERROR", "Standarderror"),
            if environment != [] && environment[0] in badEnv then Some(BadEnvironment(environment[0])) else None))))
  }

  predicate AtMostOne(section: Section, key: string) {
    |ValuesOf(section, key)| <= 1
  }

  /** The exec settings are in order: no repeated single values, supported outputs, an environment that parses. */
  predicate ExecFits(section: Section, badEnv: iset<string>) {
    && (forall key :: key in {"USER", "GROUP", "STANDARDOUTPUT", "STANDARDERROR"} ==> AtMostOne(section, key))
    && (forall key, text :: key in {"STANDARDOUTPUT", "STANDARDERROR"} && text in ValuesOf(section, key) ==>
         "file:" <= text || "append:" <= text)
    && (ValuesOf(section, "ENVIRONMENT") != [] ==> ValuesOf(section, "ENVIRONMENT")[0] !in badEnv)
  }

  lemma ExecErrorIff(section: Section, badEnv: iset<string>)
    ensures ExecError(section, badEnv).None? <==> ExecFits(section, badEnv)
  {
    hide ValuesOf;
    hide SupportedStdio;
    StdioErrorIff(section, "STANDARDOUTPUT", "Standardoutput");
    StdioErrorIff(section, "STANDARDERROR", "Standarderror");
    hide StdioError;
    assert TooMany(section, "USER", "User").None? <==> AtMostOne(section, "USER");
    assert TooMany(section, "GROUP", "Group").None? <==> AtMostOne(section, "GROUP");
    hide AtMostOne;
    hide TooMany;
  }

  /** Which error is reported: each tells that its setting is wrong and that those looked at before are in order. */
  lemma ExecErrorTells(section: Section, badEnv: iset<string>)
    ensures var r := ExecError(section, badEnv); var values := k => ValuesOf(section, k);
      && (|values("USER")| > 1 <==> r == Some(SettingTooManyValues("User", values("USER"))))
      && (|values("GROUP")| > 1 && AtMostOne(section, "USER") <==> r == Some(SettingTooManyValues("Group", values("GROUP"))))
      && (|values("STANDARDOUTPUT")| > 1 && AtMostOne(section, "USER") && AtMostOne(section, "GROUP") <==>
           r == Some(SettingTooManyValues("Standardoutput", values("STANDARDOUTPUT"))))
      && (r.Some? && r.value.BadEnvironment? <==>
           && values("ENVIRONMENT") != [] && values("ENVIRONMENT")[0] in badEnv
           && StdioError(section, "STANDARDERROR", "Standarderror").None?
           && StdioError(section, "STANDARDOUTPUT", "Standardoutput").None?
           && AtMostOne(section, "USER") && AtMostOne(section, "GROUP"))
  {
    assert |"User"| == 4 && |"Group"| == 5 && |"Standardoutput"| == 14 && |"Standarderror"| == 13;
    hide ValuesOf;
    hide SupportedStdio;
  }

  lemma StdioErrorIff(section: Section, key: string, name: string)
    ensures StdioError(section, key, name).None? <==>
      AtMostOne(section, key) && forall text :: text in ValuesOf(section, key) ==> "file:" <= text || "append:" <= text
  {
    var values := ValuesOf(section, key);
    assert |values| == 1 ==> values[0] in values && values == [values[0]];
  }

  /** No setting in the section but those of sockets and of execution. */
  predicate OnlyKnownKeys(section: Section) {
    section.Keys <= SOCKET_KEYS + EXEC_KEYS
  }

  predicate InOrder(section: Section, badEnv: iset<string>) {
    ExecFits(section, badEnv) && OnlyKnownKeys(section) && AtMostOne(section, "FILEDESCRIPTORNAME")
  }

  datatype SocketSection = SocketSection(fdname: Option<string>, services: seq<string>, sockets: seq<SocketKind>)

  /** What is reported is wrong in the section, and what is looked at before it is not. */
  ghost predicate Reported(section: Section, kinds: seq<SocketKind>, ip: iset<string>, badEnv: iset<string>, e: Error) {
    if ExecError(section, badEnv).Some? then e == ExecError(section, badEnv).value
    else if !OnlyKnownKeys(section) then e.UnusedSetting? && e.key in section && e.key !in SOCKET_KEYS + EXEC_KEYS
    else if !AtMostOne(section, "FILEDESCRIPTORNAME") then
      e == SettingTooManyValues("FileDescriptorName", ValuesOf(section, "FILEDESCRIPTORNAME"))
    else e.UnknownSocketAddr? && FirstBadAddr(kinds, ip, e.addr)
  }

  /**
   * A socket section is accepted exactly if its settings are known and in order and every address suits its transport;
   * then its sockets are all its Listen entries in the order of the file.
   */
  method ParseSocketSection(section: Section, ghost entries: seq<Entry>, ip: iset<string>, badEnv: iset<string>)
    returns (r: Result<SocketSection>)
    requires IsSectionOf(section, entries)
    ensures r.Ok? <==> InOrder(section, badEnv) && AllAddrs(Kinds(Listens(entries)), ip)
    ensures r.Ok? ==> (
      && r.value.sockets == Kinds(Listens(entries))
      && r.value.services == Given(entries, "SERVICE")
      && (r.value.fdname.None? <==> Given(entries, "FILEDESCRIPTORNAME") == [])
      && (r.value.fdname.Some? ==> Given(entries, "FILEDESCRIPTORNAME") == [r.value.fdname.value]))
    ensures r.Err? ==> Reported(section, Kinds(Listens(entries)), ip, badEnv, r.error)
  {
    ValuesAreGiven(section, entries, "SERVICE");
    ValuesAreGiven(section, entries, "FILEDESCRIPTORNAME");
    hide Given;
    hide IsSectionOf;
    hide Listens;
    hide Kinds;
    hide AllAddrs;
    hide FirstBadAddr;
    hide ExecFits;
    ExecErrorIff(section, badEnv);
    var execError := ExecError(section, badEnv);
    hide ExecError;
    if execError.Some? {
      return Err(execError.value);
    }
    var rest := section.Keys - (SOCKET_KEYS + EXEC_KEYS);
    assert rest == {} <==> OnlyKnownKeys(section);
    if rest != {} {
      var key :| key in rest;
      return Err(UnusedSetting(key));
    }
    var fdnames := ValuesOf(section, "FILEDESCRIPTORNAME");
    var services := ValuesOf(section, "SERVICE");
    hide ValuesOf;
    if |fdnames| > 1 {
      return Err(SettingTooManyValues("FileDescriptorName", fdnames));
    }
    var fdname := if fdnames == [] then None else Some(fdnames[0]);
    var kinds := MergeListens(section, entries);
    var checked := CheckAddrs(kinds, ip);
    match checked {
      case Ok(sockets) => return Ok(SocketSection(fdname, services, sockets));
      case Err(e) => return Err(e);
    }
  }

  /** From the lines of the section to its sockets: the section they make up is fixed by the lines. */
  method ParseSocketLines(upper: Upper, lines: seq<string>, ip: iset<string>, badEnv: iset<string>)
    returns (r: Result<SocketSection>, section: Section)
    requires |Entries(upper, lines)| < 0x1_0000_0000
    ensures IsSectionOf(section, Entries(upper, lines))
    ensures r.Ok? <==> InOrder(section, badEnv) && AllAddrs(Kinds(Listens(Entries(upper, lines))), ip)
    ensures r.Ok? ==> r.value.sockets == Kinds(Listens(Entries(upper, lines)))
    ensures r.Ok? ==> r.value.services == Given(Entries(upper, lines), "SERVICE")
    ensures r.Ok? ==> (if r.value.fdname.None? then [] else [r.value.fdname.value]) == Given(Entries(upper, lines), "FILEDESCRIPTORNAME")
    ensures r.Err? ==> Reported(section, Kinds(Listens(Entries(upper, lines))), ip, badEnv, r.error)
  {
    hide Given;
    hide IsSectionOf;
    hide Listens;
    hide Kinds;
    hide AllAddrs;
    hide InOrder;
    hide Reported;
    section := ParseSection(upper, lines);
    r := ParseSocketSection(section, Entries(upper, lines), ip, badEnv);
  }

  lemma MergedBuckets(section: Section, entries: seq<Entry>, kinds: seq<Numbered>)
    requires IsSectionOf(section, entries)
    requires kinds == (([] + AllOf(Stream, if Key(Stream) in section then section[Key(Stream)] else []))
      + AllOf(Datagram, if Key(Datagram) in section then section[Key(Datagram)] else [])
      + AllOf(Sequential, if Key(Sequential) in section then section[Key(Sequential)] else [])
      + AllOf(Fifo, if Key(Fifo) in section then section[Key(Fifo)] else []))
    ensures kinds == Merged(entries)
  {
    hide Key;
    hide AllOf;
  }
}
