/**
  The registry of exported services (common/rpc_service.go). Services are filed
  twice, by protocol and key and by interface. Reflection on the handler is
  replaced by what Register learns from it.
*/
module ServiceRegistry {
  import opened Options
  import opened ServiceKeys

  /** A registered service; `id` stands for the pointer. */
  datatype Service = Service(id: nat, name: string)

  /** What reflection says about a handler. */
  datatype Handler = Handler(typeName: string, exported: bool, hasMethods: bool)

  datatype Outcome =
    | Registered | NoServiceName | NotExported | AlreadyDefined | NoMethods
    | Removed | EmptyArgument | NoSuchProtocol | NoSuchKey | NoSuchInterface

  /** The two indexes, and the number of services created so far. */
  datatype Registry = Registry(
    byProtocol: map<string, map<string, Service>>, byInterface: map<string, seq<Service>>, next: nat)

  const EMPTY := Registry(map[], map[], 0)

  // ----------------------------------------------------------------- lookups

  /** `GetServiceByServiceKey`. */
  function Find(st: Registry, protocol: string, key: string): Option<Service> {
    if protocol in st.byProtocol then Lookup(st.byProtocol[protocol], key) else None
  }

  /** `GetInterface`, a missing entry reading as the empty list. */
  function ListOf(st: Registry, intf: string): seq<Service> {
    if intf in st.byInterface then st.byInterface[intf] else []
  }

  // ------------------------------------------------------ meaning of the calls

  /** `Register` first makes room for the protocol and the interface. */
  function MakeRoom(st: Registry, intf: string, protocol: string): Registry {
    st.(byProtocol := if protocol in st.byProtocol then st.byProtocol else st.byProtocol[protocol := map[]],
        byInterface := if intf in st.byInterface then st.byInterface else st.byInterface[intf := []])
  }

  function AfterRegister(st: Registry, intf: string, protocol: string, group: string, version: string, h: Handler)
    : (Registry, Outcome)
  {
    var st := MakeRoom(st, intf, protocol);
    var key := ServiceKey(intf, group, version);
    if h.typeName == "" then (st, NoServiceName)
    else if !h.exported then (st, NotExported)
    else if Find(st, protocol, key).Some? then (st, AlreadyDefined)
    else if !h.hasMethods then (st, NoMethods)
    else
      var s := Service(st.next, key);
      (Registry(st.byProtocol[protocol := st.byProtocol[protocol][key := s]],
                st.byInterface[intf := st.byInterface[intf] + [s]],
                st.next + 1),
       Registered)
  }

  /** Position of the last `s` in the list, or -1. */
  function LastIndex(list: seq<Service>, s: Service): (r: int)
    ensures -1 <= r < |list|
    ensures r >= 0 ==> list[r] == s
    ensures forall i | r < i < |list| :: list[i] != s
  {
    if list == [] then -1
    else if list[|list| - 1] == s then |list| - 1
    else LastIndex(list[..|list| - 1], s)
  }

  /** The list without the last occurrence of `s`. */
  function Without(list: seq<Service>, s: Service): seq<Service> {
    var i := LastIndex(list, s);
    if i == -1 then list else list[..i] + list[i + 1..]
  }

  /** A protocol's map without `key`; a protocol left with no service goes too. */
  function Pruned(byProtocol: map<string, map<string, Service>>, protocol: string, key: string)
    : map<string, map<string, Service>>
    requires protocol in byProtocol
  {
    var left := byProtocol[protocol] - {key};
    if |left| == 0 then byProtocol - {protocol} else byProtocol[protocol := left]
  }

  function AfterUnRegister(st: Registry, intf: string, protocol: string, key: string): (Registry, Outcome) {
    if protocol == "" || key == "" then (st, EmptyArgument)
    else if protocol !in st.byProtocol then (st, NoSuchProtocol)
    else if key !in st.byProtocol[protocol] then (st, NoSuchKey)
    else if intf !in st.byInterface then (st, NoSuchInterface)
    else
      var s := st.byProtocol[protocol][key];
      (st.(byInterface := st.byInterface[intf := Without(st.byInterface[intf], s)],
           byProtocol := Pruned(st.byProtocol, protocol, key)),
       Removed)
  }

  // --------------------------------------------------------------- the object

  class ServiceMap {
    var serviceMap: map<string, map<string, Service>>
    var interfaceMap: map<string, seq<Service>>
    var created: nat

    ghost function View(): Registry
      reads this
    {
      Registry(serviceMap, interfaceMap, created)
    }

    constructor ()
      ensures View() == EMPTY
    {
      serviceMap, interfaceMap, created := map[], map[], 0;
    }

    method GetServiceByServiceKey(protocol: string, key: string) returns (s: Option<Service>)
      ensures s == Find(View(), protocol, key)
    {
      s := None;
      if protocol in serviceMap {
        if key in serviceMap[protocol] {
          s := Some(serviceMap[protocol][key]);
        }
      }
    }

    method Register(intf: string, protocol: string, group: string, version: string, h: Handler) returns (r: Outcome)
      modifies this
      ensures (View(), r) == AfterRegister(old(View()), intf, protocol, group, version, h)
    {
      if protocol !in serviceMap {
        serviceMap := serviceMap[protocol := map[]];
      }
      if intf !in interfaceMap {
        interfaceMap := interfaceMap[intf := []];
      }
      if h.typeName == "" {
        return NoServiceName;
      }
      if !h.exported {
        return NotExported;
      }
      var key := ServiceKey(intf, group, version);
      var server := GetServiceByServiceKey(protocol, key);
      if server.Some? {
        return AlreadyDefined;
      }
      if !h.hasMethods {
        return NoMethods;
      }
      var s := Service(created, key);
      created := created + 1;
      serviceMap := serviceMap[protocol := serviceMap[protocol][key := s]];
      interfaceMap := interfaceMap[intf := interfaceMap[intf] + [s]];
      r := Registered;
    }

    method UnRegister(intf: string, protocol: string, key: string) returns (r: Outcome)
      modifies this
      ensures (View(), r) == AfterUnRegister(old(View()), intf, protocol, key)
      ensures r == Removed ==>
                && protocol in old(serviceMap) && key in old(serviceMap)[protocol]
                && (protocol in serviceMap <==> |old(serviceMap)[protocol]| > 1)
    {
      if protocol == "" || key == "" {
        return EmptyArgument;
      }
      if protocol !in serviceMap {
        return NoSuchProtocol;
      }
      if key !in serviceMap[protocol] {
        return NoSuchKey;
      }
      if intf !in interfaceMap {
        return NoSuchInterface;
      }
      var rest := DropService(interfaceMap[intf], serviceMap[protocol][key]);
      interfaceMap := interfaceMap[intf := rest];
      serviceMap := Pruned(serviceMap, protocol, key);
      OneLess(old(serviceMap)[protocol], key);
      r := Removed;
    }
  }

  lemma OneLess(services: map<string, Service>, key: string)
    requires key in services
    ensures |services - {key}| == |services| - 1
  {
    var less := services - {key};
    assert less.Keys == services.Keys - {key};
    assert |less| == |less.Keys| && |services| == |services.Keys|;
  }

  /** The two loops of `UnRegister`: find the service, keep every other position. */
  method DropService(list: seq<Service>, s: Service) returns (rest: seq<Service>)
    ensures rest == Without(list, s)
  {
    var index := FindLast(list, s);
    rest := KeepOthers(list, index);
  }

  method FindLast(list: seq<Service>, s: Service) returns (index: int)
    ensures index == LastIndex(list, s)
  {
    index := -1;
    for i := 0 to |list|
      invariant -1 <= index < i
      invariant index >= 0 ==> list[index] == s
      invariant forall j | index < j < i :: list[j] != s
    {
      if list[i] == s {
        index := i;
      }
    }
  }

  method KeepOthers(list: seq<Service>, index: int) returns (rest: seq<Service>)
    requires -1 <= index < |list|
    ensures rest == if index == -1 then list else list[..index] + list[index + 1..]
  {
    rest := [];
    for i := 0 to |list|
      invariant |rest| == if 0 <= index < i then i - 1 else i
      invariant forall j | 0 <= j < |rest| :: rest[j] == list[if 0 <= index <= j then j + 1 else j]
    {
      if i != index {
        rest := rest + [list[i]];
      }
    }
  }

  // ------------------------------------------------------------------- runs

  datatype Op =
    | DoRegister(intf: string, protocol: string, group: string, version: string, h: Handler)
    | DoUnRegister(intf: string, protocol: string, key: string)

  function Apply(st: Registry, op: Op): (Registry, Outcome) {
    match op
    case DoRegister(intf, protocol, group, version, h) => AfterRegister(st, intf, protocol, group, version, h)
    case DoUnRegister(intf, protocol, key) => AfterUnRegister(st, intf, protocol, key)
  }

  function Run(ops: seq<Op>): Registry {
    if ops == [] then EMPTY else Apply(Run(ops[..|ops| - 1]), ops[|ops| - 1]).0
  }

  /** A registration: the service and the interface it was registered under. */
  datatype Entry = Entry(service: Service, intf: string)

  type Live = map<(string, string), Entry>

  /**
    The reference: what is registered and not since removed, by protocol and key;
    the interfaces some registration has named; and what was removed under another
    interface than its own.
  */
  datatype Book = Book(live: Live, known: set<string>, stale: set<Entry>)

  /** The removal takes effect: its key is registered and its interface known. */
  predicate Removes(b: Book, op: Op) {
    && op.DoUnRegister? && op.protocol != "" && op.key != ""
    && (op.protocol, op.key) in b.live && op.intf in b.known
  }

  /** A removal that takes effect names the interface its key was registered under. */
  predicate AddressedRight(b: Book, op: Op) {
    Removes(b, op) ==> b.live[(op.protocol, op.key)].intf == op.intf
  }

  function Entered(b: Book, next: nat, op: Op): Book {
    match op
    case DoRegister(intf, protocol, group, version, h) =>
      var key := ServiceKey(intf, group, version);
      var known := b.known + {intf};
      if h.typeName != "" && h.exported && h.hasMethods && (protocol, key) !in b.live
      then b.(live := b.live[(protocol, key) := Entry(Service(next, key), intf)], known := known)
      else b.(known := known)
    case DoUnRegister(intf, protocol, key) =>
      if !Removes(b, op) then b
      else
        var e := b.live[(protocol, key)];
        b.(live := b.live - {(protocol, key)}, stale := if e.intf == intf then b.stale else b.stale + {e})
  }

  function BookOf(ops: seq<Op>): Book {
    if ops == [] then Book(map[], {}, {})
    else
      var before := ops[..|ops| - 1];
      Entered(BookOf(before), Run(before).next, ops[|ops| - 1])
  }

  /** Every removal of the run that takes effect is addressed right. */
  predicate WellAddressed(ops: seq<Op>) {
    forall i | 0 <= i < |ops| :: AddressedRight(BookOf(ops[..i]), ops[i])
  }

  // -------------------------------------------------------------- agreement

  ghost predicate NoRepeats(list: seq<Service>) {
    forall i, j | 0 <= i < j < |list| :: list[i] != list[j]
  }

  /** The protocol index holds exactly the live registrations. */
  ghost predicate FilesLive(st: Registry, live: Live) {
    forall p: string, k: string :: Find(st, p, k) == if (p, k) in live then Some(live[(p, k)].service) else None
  }

  /** The interface index holds exactly the live and the stale ones, each once. */
  ghost predicate FilesEntries(st: Registry, entries: set<Entry>) {
    && (forall i: string :: NoRepeats(ListOf(st, i)))
    && (forall i: string, s: Service :: s in ListOf(st, i) <==> Entry(s, i) in entries)
  }

  /** Registrations are of different services, all created before; what is stale is not live. */
  ghost predicate Separate(live: Live, stale: set<Entry>, next: nat) {
    && (forall a, b | a in live && b in live && live[a].service == live[b].service :: a == b)
    && (forall a <- live :: live[a].service.id < next)
    && (forall e <- stale :: e.service.id < next)
    && (forall e <- stale, a <- live :: e.service != live[a].service)
  }

  ghost predicate Files(st: Registry, b: Book) {
    && FilesLive(st, b.live) && FilesEntries(st, b.live.Values + b.stale)
    && Separate(b.live, b.stale, st.next) && st.byInterface.Keys == b.known
  }

  lemma MakeRoomFiles(st: Registry, b: Book, intf: string, protocol: string)
    requires Files(st, b)
    ensures Files(MakeRoom(st, intf, protocol), b.(known := b.known + {intf}))
  {
    var next := MakeRoom(st, intf, protocol);
    assert forall p: string, k: string :: Find(next, p, k) == Find(st, p, k);
    assert forall i: string :: ListOf(next, i) == ListOf(st, i);
  }

  lemma FindsLive(st: Registry, live: Live, p: string, k: string)
    requires FilesLive(st, live)
    ensures Find(st, p, k) == if (p, k) in live then Some(live[(p, k)].service) else None
  {
  }

  lemma RegisterFiles(st: Registry, b: Book, op: Op)
    requires Files(st, b) && op.DoRegister?
    ensures Files(Apply(st, op).0, Entered(b, st.next, op))
  {
    var room, key := MakeRoom(st, op.intf, op.protocol), ServiceKey(op.intf, op.group, op.version);
    var next, more := Apply(st, op).0, Entered(b, st.next, op);
    MakeRoomFiles(st, b, op.intf, op.protocol);
    FindsLive(room, b.live, op.protocol, key);
    if Apply(st, op).1 == Registered {
      AddFiles(room, b.(known := b.known + {op.intf}), op.intf, op.protocol, key, next, more);
    } else {
      assert next == room && more.live == b.live;
    }
  }

  /** Filing a new service keeps both indexes in step. */
  lemma AddFiles(st: Registry, b: Book, intf: string, protocol: string, key: string, next: Registry, more: Book)
    requires Files(st, b) && protocol in st.byProtocol && intf in st.byInterface && (protocol, key) !in b.live
    requires var s := Service(st.next, key);
             && next == Registry(st.byProtocol[protocol := st.byProtocol[protocol][key := s]],
                                 st.byInterface[intf := st.byInterface[intf] + [s]], st.next + 1)
             && more == b.(live := b.live[(protocol, key) := Entry(s, intf)])
    ensures Files(next, more)
  {
    var e := Entry(Service(st.next, key), intf);
    var were, are := b.live.Values + b.stale, more.live.Values + more.stale;
    AddLive(st, b.live, protocol, key, e, next, more.live);
    AddedEntries(b, (protocol, key), e, were, are, st.next);
    AddEntry(st, were, intf, e.service, next, are);
    MoreSeparate(b, (protocol, key), e, st.next);
  }

  lemma AddedEntries(b: Book, a: (string, string), e: Entry, were: set<Entry>, are: set<Entry>, next: nat)
    requires a !in b.live && Separate(b.live, b.stale, next) && e.service.id == next
    requires were == b.live.Values + b.stale && are == b.live[a := e].Values + b.stale
    ensures are == were + {e} && e !in were
  {
    AddedValues(b.live, a, e);
  }

  lemma MoreSeparate(b: Book, a: (string, string), e: Entry, next: nat)
    requires Separate(b.live, b.stale, next) && e.service.id == next
    ensures Separate(b.live[a := e], b.stale, next + 1)
  {
  }

  lemma AddLive(st: Registry, live: Live, protocol: string, key: string, e: Entry, next: Registry, more: Live)
    requires FilesLive(st, live) && protocol in st.byProtocol
    requires next.byProtocol == st.byProtocol[protocol := st.byProtocol[protocol][key := e.service]]
    requires more == live[(protocol, key) := e]
    ensures FilesLive(next, more)
  {
    forall p: string, k: string
      ensures Find(next, p, k) == if (p, k) in more then Some(more[(p, k)].service) else None
    {
      FindsLive(st, live, p, k);
    }
  }

  lemma AddedValues(live: Live, a: (string, string), e: Entry)
    requires a !in live
    ensures live[a := e].Values == live.Values + {e}
  {
    var more := live[a := e];
    assert more[a] == e;
    forall x | x in live.Values
      ensures x in more.Values
    {
      var b :| b in live && live[b] == x;
      assert more[b] == x;
    }
  }

  lemma AddEntry(st: Registry, entries: set<Entry>, intf: string, s: Service, next: Registry, more: set<Entry>)
    requires FilesEntries(st, entries) && intf in st.byInterface && Entry(s, intf) !in entries
    requires next.byInterface == st.byInterface[intf := st.byInterface[intf] + [s]]
    requires more == entries + {Entry(s, intf)}
    ensures FilesEntries(next, more) && next.byInterface.Keys == st.byInterface.Keys
  {
    assert s !in ListOf(st, intf);
    forall i: string
      ensures NoRepeats(ListOf(next, i))
    {
      assert NoRepeats(ListOf(st, i));
    }
    forall i: string, x: Service
      ensures x in ListOf(next, i) <==> Entry(x, i) in more
    {
      assert x in ListOf(st, i) <==> Entry(x, i) in entries;
    }
  }

  /** `left` has the members of the list but `s`, each once. */
  ghost predicate IsWithout(left: seq<Service>, list: seq<Service>, s: Service) {
    NoRepeats(left) && forall x: Service :: x in left <==> x in list && x != s
  }

  lemma WithoutMembers(list: seq<Service>, s: Service)
    requires NoRepeats(list)
    ensures IsWithout(Without(list, s), list, s)
  {
    var n := LastIndex(list, s);
    if n >= 0 {
      assert list == list[..n] + [s] + list[n + 1..];
      assert s !in list[..n] && s !in list[n + 1..];
    }
  }

  /** A removal succeeds exactly when the reference says it takes effect. */
  lemma RemovedIffRemoves(st: Registry, b: Book, op: Op)
    requires Files(st, b) && op.DoUnRegister?
    ensures Apply(st, op).1 == Removed <==> Removes(b, op)
  {
    FindsLive(st, b.live, op.protocol, op.key);
  }

  lemma UnRegisterFiles(st: Registry, b: Book, op: Op)
    requires Files(st, b) && op.DoUnRegister?
    ensures Files(Apply(st, op).0, Entered(b, st.next, op))
  {
    RemovedIffRemoves(st, b, op);
    if Removes(b, op) {
      FindsLive(st, b.live, op.protocol, op.key);
      var list, e := st.byInterface[op.intf], b.live[(op.protocol, op.key)];
      assert NoRepeats(ListOf(st, op.intf));
      WithoutMembers(list, e.service);
      var left, next, less := Without(list, e.service), Apply(st, op).0, Entered(b, st.next, op);
      RemoveFiles(st, b, op.protocol, op.key, op.intf, left, next, less);
    }
  }

  /** Taking a service out takes it off its own list, and off no other. */
  lemma RemoveFiles(st: Registry, b: Book, protocol: string, key: string, intf: string, left: seq<Service>,
                    next: Registry, less: Book)
    requires Files(st, b) && (protocol, key) in b.live && protocol in st.byProtocol && intf in st.byInterface
    requires var e := b.live[(protocol, key)];
             && IsWithout(left, st.byInterface[intf], e.service) && next.byInterface == st.byInterface[intf := left]
             && next.byProtocol == Pruned(st.byProtocol, protocol, key) && next.next == st.next
             && less == Book(b.live - {(protocol, key)}, b.known, if e.intf == intf then b.stale else b.stale + {e})
    ensures Files(next, less)
  {
    var a := (protocol, key);
    RemoveLive(st, b.live, protocol, key, next, less.live);
    var were, are := b.live.Values + b.stale, less.live.Values + less.stale;
    RemainingEntries(b, a, intf, were, are, less.stale);
    RemoveEntry(st, were, intf, b.live[a].service, left, next, are);
    LessSeparate(b, a, less.stale, st.next);
  }

  lemma LessSeparate(b: Book, a: (string, string), stale: set<Entry>, next: nat)
    requires Separate(b.live, b.stale, next) && a in b.live && stale <= b.stale + {b.live[a]}
    ensures Separate(b.live - {a}, stale, next)
  {
  }

  lemma RemoveLive(st: Registry, live: Live, protocol: string, key: string, next: Registry, less: Live)
    requires FilesLive(st, live) && protocol in st.byProtocol
    requires next.byProtocol == Pruned(st.byProtocol, protocol, key) && less == live - {(protocol, key)}
    ensures FilesLive(next, less)
  {
    forall p: string, k: string
      ensures Find(next, p, k) == if (p, k) in less then Some(less[(p, k)].service) else None
    {
      FindsLive(st, live, p, k);
      PrunedAt(st.byProtocol, protocol, key, p, k);
    }
  }

  /** What is on file without `Entry(s, intf)`; nothing else names that service and interface. */
  lemma RemoveEntry(st: Registry, entries: set<Entry>, intf: string, s: Service, left: seq<Service>,
                    next: Registry, rest: set<Entry>)
    requires FilesEntries(st, entries) && intf in st.byInterface && rest == entries - {Entry(s, intf)}
    requires IsWithout(left, st.byInterface[intf], s) && next.byInterface == st.byInterface[intf := left]
    ensures FilesEntries(next, rest) && next.byInterface.Keys == st.byInterface.Keys
  {
    forall i: string
      ensures NoRepeats(ListOf(next, i))
    {
      assert NoRepeats(ListOf(st, i));
    }
    forall i: string, x: Service
      ensures x in ListOf(next, i) <==> Entry(x, i) in rest
    {
      assert x in ListOf(st, i) <==> Entry(x, i) in entries;
    }
  }

  lemma RemovedValues(live: Live, a: (string, string))
    requires a in live && forall b | b in live && live[b].service == live[a].service :: b == a
    ensures (live - {a}).Values == live.Values - {live[a]}
  {
    var less := live - {a};
    forall x | x in live.Values - {live[a]}
      ensures x in less.Values
    {
      var b :| b in live && live[b] == x;
      assert less[b] == x;
    }
  }

  /** The entries that remain are the live and stale ones of the new book. */
  lemma RemainingEntries(
      b: Book, a: (string, string), intf: string, were: set<Entry>, are: set<Entry>, stale: set<Entry>)
    requires a in b.live && forall x, y | x in b.live && y in b.live && b.live[x].service == b.live[y].service :: x == y
    requires forall e <- b.stale, x <- b.live :: e.service != b.live[x].service
    requires were == b.live.Values + b.stale && are == (b.live - {a}).Values + stale
    requires stale == if b.live[a].intf == intf then b.stale else b.stale + {b.live[a]}
    ensures are == were - {Entry(b.live[a].service, intf)}
  {
    var e := b.live[a];
    RemovedValues(b.live, a);
    assert e in b.live.Values;
    assert e.intf != intf ==> Entry(e.service, intf) !in were;
  }

  /** Along every run the indexes hold exactly what the reference says. */
  lemma {:induction false} RunFiles(ops: seq<Op>)
    ensures Files(Run(ops), BookOf(ops))
    decreases |ops|
  {
    if ops != [] {
      var before, op := ops[..|ops| - 1], ops[|ops| - 1];
      RunFiles(before);
      if op.DoRegister? {
        RegisterFiles(Run(before), BookOf(before), op);
      } else {
        UnRegisterFiles(Run(before), BookOf(before), op);
      }
    }
  }

  lemma WellAddressedSplit(before: seq<Op>, op: Op)
    ensures WellAddressed(before + [op]) <==> WellAddressed(before) && AddressedRight(BookOf(before), op)
  {
    var ops, n := before + [op], |before|;
    assert forall i | 0 <= i < n :: ops[..i] == before[..i] && ops[i] == before[i];
    assert ops[..n] == before && ops[n] == op;
    if WellAddressed(ops) {
      forall i | 0 <= i < n
        ensures AddressedRight(BookOf(before[..i]), before[i])
      {
        assert AddressedRight(BookOf(ops[..i]), ops[i]);
      }
    }
  }

  lemma StaleStep(b: Book, next: nat, op: Op)
    ensures Entered(b, next, op).stale == {} <==> b.stale == {} && AddressedRight(b, op)
  {
  }

  /** Nothing is stale exactly when every removal was addressed right. */
  lemma {:induction false} StaleIffMisaddressed(ops: seq<Op>)
    ensures BookOf(ops).stale == {} <==> WellAddressed(ops)
    decreases |ops|
  {
    if ops != [] {
      var before, op := ops[..|ops| - 1], ops[|ops| - 1];
      assert ops == before + [op];
      StaleIffMisaddressed(before);
      WellAddressedSplit(before, op);
      StaleStep(BookOf(before), Run(before).next, op);
    }
  }

  /** `s` is filed under some protocol and key. */
  ghost predicate InProtocolIndex(st: Registry, s: Service) {
    exists p: string, k: string :: Find(st, p, k) == Some(s)
  }

  /** `s` is filed under some interface. */
  ghost predicate InInterfaceIndex(st: Registry, s: Service) {
    exists i: string :: s in ListOf(st, i)
  }

  /** The two indexes hold the same services, each in one place of each. */
  ghost predicate IndexesAgree(st: Registry) {
    && (forall s: Service :: InProtocolIndex(st, s) <==> InInterfaceIndex(st, s))
    && (forall p: string, k: string, q: string, l: string ::
          Find(st, p, k).Some? && Find(st, p, k) == Find(st, q, l) ==> p == q && k == l)
    && (forall i: string, j: string, s: Service :: s in ListOf(st, i) && s in ListOf(st, j) ==> i == j)
    && (forall i: string :: NoRepeats(ListOf(st, i)))
  }

  /** A stale service is on its interface's list and not in the protocol index. */
  lemma StaleIsOnlyListed(st: Registry, b: Book, e: Entry)
    requires Files(st, b) && e in b.stale
    ensures InInterfaceIndex(st, e.service) && !InProtocolIndex(st, e.service)
  {
    assert e.service in ListOf(st, e.intf);
    if p: string, k: string :| Find(st, p, k) == Some(e.service) {
      FindsLive(st, b.live, p, k);
    }
  }

  lemma FiledAgree(st: Registry, b: Book)
    requires Files(st, b) && b.stale == {}
    ensures IndexesAgree(st)
  {
    var live := b.live;
    forall s: Service
      ensures InProtocolIndex(st, s) <==> InInterfaceIndex(st, s)
    {
      if p: string, k: string :| Find(st, p, k) == Some(s) {
        assert live[(p, k)].service == s;
        assert Entry(s, live[(p, k)].intf) in live.Values;
        assert s in ListOf(st, live[(p, k)].intf);
      }
      if i: string :| s in ListOf(st, i) {
        var a :| a in live && live[a] == Entry(s, i);
        assert Find(st, a.0, a.1) == Some(s);
      }
    }
    forall i: string, j: string, s: Service | s in ListOf(st, i) && s in ListOf(st, j)
      ensures i == j
    {
      var a :| a in live && live[a] == Entry(s, i);
      var b :| b in live && live[b] == Entry(s, j);
      assert a == b;
    }
    forall p: string, k: string, q: string, l: string | Find(st, p, k).Some? && Find(st, p, k) == Find(st, q, l)
      ensures p == q && k == l
    {
      assert live[(p, k)].service == live[(q, l)].service;
    }
  }

  /**
    The registry's promise over all runs. Lookup by protocol and key succeeds exactly
    for what is registered and not since removed. The two indexes hold the same services,
    each in one place of each, exactly when every removal that took effect named the
    interface its service was registered under.
  */
  lemma RegistryAgrees(ops: seq<Op>)
    ensures IndexesAgree(Run(ops)) <==> WellAddressed(ops)
    ensures forall p: string, k: string :: Find(Run(ops), p, k).Some? <==> (p, k) in BookOf(ops).live
  {
    RunFiles(ops);
    StaleIffMisaddressed(ops);
    var st, b := Run(ops), BookOf(ops);
    if b.stale == {} {
      FiledAgree(st, b);
    } else {
      var e :| e in b.stale;
      StaleIsOnlyListed(st, b, e);
    }
    forall p: string, k: string
      ensures Find(st, p, k).Some? <==> (p, k) in b.live
    {
      FindsLive(st, b.live, p, k);
    }
  }

  /** The removals that take effect are those that return without an error. */
  lemma RunRemovals(ops: seq<Op>, op: Op)
    requires op.DoUnRegister?
    ensures Apply(Run(ops), op).1 == Removed <==> Removes(BookOf(ops), op)
  {
    RunFiles(ops);
    RemovedIffRemoves(Run(ops), BookOf(ops), op);
  }

  /** What a registration that succeeds does to the lookups, in any state: one more service, nothing else. */
  lemma LookupsAfterRegister(st: Registry, op: Op, p: string, k: string, i: string)
    requires op.DoRegister? && Apply(st, op).1 == Registered
    ensures var next, key := Apply(st, op).0, ServiceKey(op.intf, op.group, op.version);
            && (p == op.protocol && k == key ==> Find(next, p, k) == Some(Service(st.next, key)))
            && (p != op.protocol || k != key ==> Find(next, p, k) == Find(st, p, k))
            && ListOf(next, i) == ListOf(st, i) + (if i == op.intf then [Service(st.next, key)] else [])
            && next.next == st.next + 1
  {
  }

  /** What a removal that succeeds does to them: the service is not found any more and off the list it names. */
  lemma LookupsAfterUnRegister(st: Registry, op: Op, p: string, k: string, i: string)
    requires op.DoUnRegister? && Apply(st, op).1 == Removed
    ensures var next, gone := Apply(st, op).0, Find(st, op.protocol, op.key);
            && gone.Some?
            && Find(next, p, k) == (if p == op.protocol && k == op.key then None else Find(st, p, k))
            && (i != op.intf ==> ListOf(next, i) == ListOf(st, i))
            && (gone.value !in ListOf(st, op.intf) ==> ListOf(next, op.intf) == ListOf(st, op.intf))
            && multiset(ListOf(next, op.intf)) == multiset(ListOf(st, op.intf)) - multiset{gone.value}
  {
    PrunedAt(st.byProtocol, op.protocol, op.key, p, k);
    var list, s := st.byInterface[op.intf], st.byProtocol[op.protocol][op.key];
    WithoutOne(list, s);
  }

  lemma WithoutOne(list: seq<Service>, s: Service)
    ensures multiset(Without(list, s)) == multiset(list) - multiset{s}
    ensures s !in list ==> Without(list, s) == list
  {
    var n := LastIndex(list, s);
    if n >= 0 {
      assert list == list[..n] + [s] + list[n + 1..];
    } else {
      assert s !in list;
    }
  }

  /** The interfaces a removal may name are those some registration has named, failed ones included. */
  lemma {:induction false} KnownIff(ops: seq<Op>, intf: string)
    ensures intf in BookOf(ops).known <==> exists op <- ops :: op.DoRegister? && op.intf == intf
    decreases |ops|
  {
    if ops != [] {
      var before, op := ops[..|ops| - 1], ops[|ops| - 1];
      assert ops == before + [op];
      KnownIff(before, intf);
      assert op in ops && forall o <- before :: o in ops;
      assert forall o <- ops :: o in before || o == op;
    }
  }

  /** What a removal reports, in every run. */
  lemma RunRemovalOutcomes(ops: seq<Op>, op: Op)
    requires op.DoUnRegister?
    ensures var r, b := Apply(Run(ops), op).1, BookOf(ops);
            && (r == EmptyArgument <==> op.protocol == "" || op.key == "")
            && (r in {NoSuchProtocol, NoSuchKey} <==>
                  op.protocol != "" && op.key != "" && (op.protocol, op.key) !in b.live)
            && (r == NoSuchInterface <==>
                  op.protocol != "" && op.key != "" && (op.protocol, op.key) in b.live && op.intf !in b.known)
  {
    RunFiles(ops);
    FindsLive(Run(ops), BookOf(ops).live, op.protocol, op.key);
  }

  /** What a registration reports, in every run: it succeeds exactly for a fit handler and a key not yet registered. */
  lemma RunRegistrations(ops: seq<Op>, op: Op)
    requires op.DoRegister?
    ensures var r, h := Apply(Run(ops), op).1, op.h;
            var taken := (op.protocol, ServiceKey(op.intf, op.group, op.version)) in BookOf(ops).live;
            && (r == Registered <==> h.typeName != "" && h.exported && h.hasMethods && !taken)
            && (r == NoServiceName <==> h.typeName == "")
            && (r == NotExported <==> h.typeName != "" && !h.exported)
            && (r == AlreadyDefined <==> h.typeName != "" && h.exported && taken)
            && (r == NoMethods <==> h.typeName != "" && h.exported && !taken && !h.hasMethods)
  {
    RunFiles(ops);
    var room := MakeRoom(Run(ops), op.intf, op.protocol);
    MakeRoomFiles(Run(ops), BookOf(ops), op.intf, op.protocol);
    FindsLive(room, BookOf(ops).live, op.protocol, ServiceKey(op.intf, op.group, op.version));
  }

  /** `op` registers the key over the protocol, under the entry's interface; the key is the service's name. */
  predicate Registers(op: Op, protocol: string, key: string, e: Entry) {
    && op.DoRegister? && op.protocol == protocol && op.intf == e.intf
    && ServiceKey(op.intf, op.group, op.version) == key == e.service.name
  }

  lemma EnteredOrWasThere(b: Book, next: nat, op: Op, protocol: string, key: string)
    requires (protocol, key) in Entered(b, next, op).live
    ensures var e := Entered(b, next, op).live[(protocol, key)];
            ((protocol, key) in b.live && b.live[(protocol, key)] == e) || Registers(op, protocol, key, e)
  {
  }

  lemma {:induction false} LiveWasRegistered(ops: seq<Op>, protocol: string, key: string)
    requires (protocol, key) in BookOf(ops).live
    ensures exists i | 0 <= i < |ops| :: Registers(ops[i], protocol, key, BookOf(ops).live[(protocol, key)])
    decreases |ops|
  {
    var n := |ops| - 1;
    var before, op := ops[..n], ops[n];
    EnteredOrWasThere(BookOf(before), Run(before).next, op, protocol, key);
    var e := BookOf(ops).live[(protocol, key)];
    if !Registers(op, protocol, key, e) {
      LiveWasRegistered(before, protocol, key);
      var i :| 0 <= i < n && Registers(before[i], protocol, key, e);
      assert Registers(ops[i], protocol, key, e);
    } else {
      assert Registers(ops[n], protocol, key, e);
    }
  }

  /** A lookup finds a service that has the key for its name and was registered for it. */
  lemma FoundByName(ops: seq<Op>, protocol: string, key: string)
    requires (protocol, key) in BookOf(ops).live
    ensures var e := BookOf(ops).live[(protocol, key)];
            && Find(Run(ops), protocol, key) == Some(e.service) && e.service.name == key
            && exists i | 0 <= i < |ops| :: Registers(ops[i], protocol, key, e)
  {
    RunFiles(ops);
    FindsLive(Run(ops), BookOf(ops).live, protocol, key);
    LiveWasRegistered(ops, protocol, key);
  }

  /** Once out of step the indexes stay out of step: no later call repairs a stale entry. */
  lemma StaysOutOfStep(ops: seq<Op>, op: Op)
    requires !IndexesAgree(Run(ops))
    ensures !IndexesAgree(Run(ops + [op]))
  {
    RegistryAgrees(ops);
    RegistryAgrees(ops + [op]);
    WellAddressedSplit(ops, op);
  }

  /** A run that gets there: two interfaces registered, the first one's key removed under the second. */
  lemma MisaddressedRun(first: string, second: string, protocol: string, h: Handler)
    requires first != "" && second != "" && first != second && protocol != ""
    requires h.typeName != "" && h.exported && h.hasMethods
    ensures var ops := [DoRegister(first, protocol, "", "", h), DoRegister(second, protocol, "", "", h),
                        DoUnRegister(second, protocol, first)];
            Apply(Run(ops[..2]), ops[2]).1 == Removed && !IndexesAgree(Run(ops))
  {
    var ops := [DoRegister(first, protocol, "", "", h), DoRegister(second, protocol, "", "", h),
                DoUnRegister(second, protocol, first)];
    assert ServiceKey(first, "", "") == first && ServiceKey(second, "", "") == second;
    var one, two := ops[..1], ops[..2];
    assert one[..0] == [] && two[..1] == one;
    assert BookOf(one).live == map[(protocol, first) := Entry(Service(0, first), first)];
    assert Removes(BookOf(two), ops[2]) && !AddressedRight(BookOf(two), ops[2]);
    RunRemovals(two, ops[2]);
    RegistryAgrees(ops);
  }

  /**
    In one step: from indexes in step, a removal that succeeds keeps them so exactly when
    it names the interface the service was registered under.
  */
  lemma RemovalAgreesIffAddressedRight(st: Registry, b: Book, op: Op)
    requires Files(st, b) && op.DoUnRegister?
    ensures Apply(st, op).1 == Removed <==> Removes(b, op)
    ensures b.stale == {} && Removes(b, op) ==>
              (IndexesAgree(Apply(st, op).0) <==> b.live[(op.protocol, op.key)].intf == op.intf)
  {
    RemovedIffRemoves(st, b, op);
    if b.stale == {} && Removes(b, op) {
      UnRegisterFiles(st, b, op);
      var next, less := Apply(st, op).0, Entered(b, st.next, op);
      if AddressedRight(b, op) {
        FiledAgree(next, less);
      } else {
        StaleIsOnlyListed(next, less, b.live[(op.protocol, op.key)]);
      }
    }
  }

  /** A call that fails changes no lookup, in any state. */
  lemma FailureChangesNoLookup(st: Registry, op: Op)
    requires Apply(st, op).1 != Registered && Apply(st, op).1 != Removed
    ensures forall p: string, k: string :: Find(Apply(st, op).0, p, k) == Find(st, p, k)
    ensures forall i: string :: ListOf(Apply(st, op).0, i) == ListOf(st, i)
  {
  }

  lemma PrunedAt(m: map<string, map<string, Service>>, protocol: string, key: string, p: string, k: string)
    requires protocol in m
    ensures var n := Pruned(m, protocol, key);
            (if p in n then Lookup(n[p], k) else None) ==
            if p == protocol && k == key then None else if p in m then Lookup(m[p], k) else None
  {
    if p == protocol && k != key && k in m[p] {
      assert k in m[protocol] - {key};
    }
  }
}
