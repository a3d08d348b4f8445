/**
 * The zeroconf service of the application, the first version of the
 * library's service. It keeps the same registry and broker, with three
 * differences that change what the tables can look like:
 *
 *  - a type-added message always installs a new, empty bucket under the
 *    type's name, so a bucket can be replaced while connections still
 *    refer to the old one;
 *  - service-added and service-removed look the bucket up with `get` and
 *    throw when there is none;
 *  - the multicast lock is created once, when the service is created.
 *
 * Because a connection's connectionTypes holds bucket objects, and a name
 * can be given a new bucket, a bucket here is known by an identity (`nat`):
 * the type table maps a name to the identity of its current bucket, and
 * `buckets` holds every bucket that was ever created, the replaced ones
 * included.
 */
module LegacyService {
  import opened JavaTypes
  import opened Vectors
  import opened Broker
  import opened Discovery
  import Z = ZeroConfService

  type SrvType = Z.SrvType

  /** The fields of a Connection stub; connectionTypes lists bucket identities. */
  datatype ConnectionState = ConnectionState(connectionAllTypes: bool, connectionTypes: seq<nat>, hasCallbacks: bool)

  /** The bucket `new SrvType(name)` creates. */
  function NewBucket(n: string): (t: SrvType)
    ensures t.typeName == n && t.subscribedClients == [] && t.typeServices == [] && t.servicesByKey == map[]
  {
    Z.SrvType(n, [], [], map[])
  }

  function TargetOf(connections: map<nat, ConnectionState>, c: nat): Target {
    Target(c, c in connections && connections[c].hasCallbacks)
  }

  function TargetsOf(connections: map<nat, ConnectionState>, cs: seq<nat>): (r: seq<Target>)
    ensures |r| == |cs| && forall i :: 0 <= i < |cs| ==> r[i] == TargetOf(connections, cs[i])
  {
    seq(|cs|, i requires 0 <= i < |cs| => TargetOf(connections, cs[i]))
  }

  /** The registry of a Service. */
  datatype Tables = Tables(allTypesByName: map<string, nat>, buckets: map<nat, SrvType>, allServices: seq<Srv>,
                           subscribeAllClients: seq<nat>, allTypeSubscriptions: int,
                           connections: map<nat, ConnectionState>, connectionSerialCounter: nat,
                           nextSrvId: nat, nextTypeId: nat)

  /** Every name leads to an existing bucket created for that name. */
  ghost predicate Filed(allTypesByName: map<string, nat>, buckets: map<nat, SrvType>) {
    forall n :: n in allTypesByName ==> allTypesByName[n] in buckets && buckets[allTypesByName[n]].typeName == n
  }

  /** The current bucket of a type. */
  function Current(r: Tables, n: string): SrvType
    requires Filed(r.allTypesByName, r.buckets) && n in r.allTypesByName
  {
    r.buckets[r.allTypesByName[n]]
  }

  // ---- Consistency of the registry ----

  ghost predicate BucketValid(t: SrvType, allServices: seq<Srv>, connections: map<nat, ConnectionState>) {
    && Distinct(t.subscribedClients)
    && (forall c :: c in t.subscribedClients ==> c in connections)
    && OldestFirst(t.typeServices)
    && (forall s :: s in t.typeServices ==> s in allServices)
    && Z.BucketIndexed(t)
  }

  ghost predicate ConnectionValid(c: nat, st: ConnectionState, buckets: map<nat, SrvType>,
                                  subscribeAllClients: seq<nat>, connectionSerialCounter: nat) {
    && c < connectionSerialCounter
    && Distinct(st.connectionTypes)
    && (forall b :: b in st.connectionTypes ==> b in buckets)
    && (st.connectionAllTypes <==> c in subscribeAllClients)
  }

  /** Every bucket, current or replaced, is consistent and older than the next one. */
  ghost predicate BucketsValid(r: Tables) {
    forall b :: b in r.buckets ==> b < r.nextTypeId && BucketValid(r.buckets[b], r.allServices, r.connections)
  }

  /** An entry is held by one bucket only. */
  ghost predicate EntriesOwned(r: Tables) {
    forall a, b, s :: a in r.buckets && b in r.buckets && s in r.buckets[a].typeServices && s in r.buckets[b].typeServices ==> a == b
  }

  ghost predicate ConnectionsValid(r: Tables) {
    forall c :: c in r.connections ==>
      ConnectionValid(c, r.connections[c], r.buckets, r.subscribeAllClients, r.connectionSerialCounter)
  }

  /** A bucket listed by a connection has that connection among its subscribers, and only then. */
  ghost predicate SubscriptionsRecorded(r: Tables) {
    forall c, b :: c in r.connections && b in r.buckets ==>
      (b in r.connections[c].connectionTypes <==> c in r.buckets[b].subscribedClients)
  }

  ghost predicate AllTypesRecorded(r: Tables) {
    && Distinct(r.subscribeAllClients)
    && (forall c :: c in r.subscribeAllClients ==> c in r.connections)
    && r.allTypeSubscriptions == |r.subscribeAllClients|
  }

  ghost predicate ServicesOrdered(r: Tables) {
    NewestFirst(r.allServices) && (forall s :: s in r.allServices ==> s.id < r.nextSrvId)
  }

  ghost predicate TablesValid(r: Tables) {
    && Filed(r.allTypesByName, r.buckets) && BucketsValid(r) && EntriesOwned(r) && ConnectionsValid(r)
    && SubscriptionsRecorded(r) && AllTypesRecorded(r) && ServicesOrdered(r)
  }

  function Empty(): (r: Tables)
    ensures TablesValid(r)
  {
    Tables(map[], map[], [], [], 0, map[], 0, 0, 0)
  }

  // ---- The registry's state changes ----

  function Bind(r: Tables): Tables {
    r.(connections := r.connections[r.connectionSerialCounter := ConnectionState(false, [], false)],
       connectionSerialCounter := r.connectionSerialCounter + 1)
  }

  function WithCallbacks(r: Tables, c: nat, present: bool): Tables
    requires c in r.connections
  {
    r.(connections := r.connections[c := r.connections[c].(hasCallbacks := present)])
  }

  /** A type-added message: a new, empty bucket becomes the type's bucket, whatever it had before. */
  function AddedType(r: Tables, n: string): Tables {
    r.(allTypesByName := r.allTypesByName[n := r.nextTypeId],
       buckets := r.buckets[r.nextTypeId := NewBucket(n)],
       nextTypeId := r.nextTypeId + 1)
  }

  /** The bucket ensureType returns: the current one, or a new one. */
  function EnsuredId(r: Tables, n: string): nat {
    if n in r.allTypesByName then r.allTypesByName[n] else r.nextTypeId
  }

  /** ensureType: a bucket is created only for a name that has none. */
  function EnsuredType(r: Tables, n: string): Tables {
    if n in r.allTypesByName then r else AddedType(r, n)
  }

  function NewSrv(r: Tables, e: ServiceEvent): Srv {
    Srv(r.nextSrvId, e.typeName, e.name, e.key)
  }

  /** service-added for a type that has no bucket: `get` gives null, and addSrv throws. */
  predicate AddThrows(r: Tables, e: ServiceEvent) {
    e.typeName !in r.allTypesByName
  }

  function AddedService(r: Tables, e: ServiceEvent): Tables
    requires Filed(r.allTypesByName, r.buckets)
  {
    if AddThrows(r, e) then r
    else
      var b := r.allTypesByName[e.typeName];
      var s := NewSrv(r, e);
      r.(buckets := r.buckets[b := Z.WithSrv(r.buckets[b], s)],
         allServices := [s] + r.allServices,
         nextSrvId := r.nextSrvId + 1)
  }

  /** service-removed throws when there is no bucket, or when its key is not indexed (removeSrv(null)). */
  predicate RemovalThrows(r: Tables, e: ServiceEvent)
    requires Filed(r.allTypesByName, r.buckets)
  {
    e.typeName !in r.allTypesByName || e.key !in Current(r, e.typeName).servicesByKey
  }

  function RemovedService(r: Tables, e: ServiceEvent): Tables
    requires Filed(r.allTypesByName, r.buckets)
  {
    if RemovalThrows(r, e) then r
    else
      var b := r.allTypesByName[e.typeName];
      var s := r.buckets[b].servicesByKey[e.key];
      r.(buckets := r.buckets[b := Z.WithoutSrv(r.buckets[b], s)],
         allServices := RemoveFirst(r.allServices, s))
  }

  function AfterMessage(r: Tables, m: Message): Tables
    requires Filed(r.allTypesByName, r.buckets)
  {
    match m
    case TypeAdded(n) => AddedType(r, n)
    case ServiceAdded(e) => AddedService(r, e)
    case ServiceRemoved(e) => RemovedService(r, e)
    case ServiceResolved(_) => r
  }

  function MessageCalls(r: Tables, m: Message): seq<Call>
    requires Filed(r.allTypesByName, r.buckets)
  {
    match m
    case TypeAdded(_) => []
    case ServiceAdded(e) =>
      if AddThrows(r, e) then []
      else FanOut(Updated, e.key, TargetsOf(r.connections, Current(r, e.typeName).subscribedClients),
                  TargetsOf(r.connections, r.subscribeAllClients))
    case ServiceRemoved(e) =>
      if RemovalThrows(r, e) then []
      else FanOut(Removed, Current(r, e.typeName).servicesByKey[e.key].key,
                  TargetsOf(r.connections, Current(r, e.typeName).subscribedClients),
                  TargetsOf(r.connections, r.subscribeAllClients))
    case ServiceResolved(_) => []
  }

  function SubscribedAll(r: Tables, c: nat): Tables
    requires c in r.connections
  {
    var st := r.connections[c];
    if st.connectionAllTypes then r
    else r.(connections := r.connections[c := st.(connectionAllTypes := true)],
            allTypeSubscriptions := r.allTypeSubscriptions + 1,
            subscribeAllClients := r.subscribeAllClients + [c])
  }

  function UnsubscribedAll(r: Tables, c: nat): Tables
    requires c in r.connections
  {
    var st := r.connections[c];
    if !st.connectionAllTypes then r
    else r.(connections := r.connections[c := st.(connectionAllTypes := false)],
            allTypeSubscriptions := r.allTypeSubscriptions - 1,
            subscribeAllClients := RemoveFirst(r.subscribeAllClients, c))
  }

  /**
   * subscribeType: ensureType; then, unless the connection already lists
   * that very bucket, it lists it and subscribes to it.
   */
  function SubscribedType(r: Tables, c: nat, n: string): Tables
    requires Filed(r.allTypesByName, r.buckets) && c in r.connections
  {
    var r1 := EnsuredType(r, n);
    var b := EnsuredId(r, n);
    var t := r1.buckets[b];
    var st := r.connections[c];
    if b in st.connectionTypes then r1
    else r1.(connections := r.connections[c := st.(connectionTypes := st.connectionTypes + [b])],
             buckets := r1.buckets[b := if c in t.subscribedClients then t
                                        else t.(subscribedClients := t.subscribedClients + [c])])
  }

  function SubscribeTypeCalls(r: Tables, c: nat, n: string): seq<Call>
    requires Filed(r.allTypesByName, r.buckets) && c in r.connections
  {
    var b := EnsuredId(r, n);
    var t := EnsuredType(r, n).buckets[b];
    if b in r.connections[c].connectionTypes || c in t.subscribedClients then []
    else Replay(TargetOf(r.connections, c), t.typeServices)
  }

  function UnsubscribedType(r: Tables, c: nat, n: string): Tables
    requires Filed(r.allTypesByName, r.buckets) && c in r.connections
  {
    var r1 := EnsuredType(r, n);
    var b := EnsuredId(r, n);
    var t := r1.buckets[b];
    var st := r.connections[c];
    if b !in st.connectionTypes then r1
    else r1.(connections := r.connections[c := st.(connectionTypes := RemoveFirst(st.connectionTypes, b))],
             buckets := r1.buckets[b := t.(subscribedClients := RemoveFirst(t.subscribedClients, c))])
  }

  /** The buckets after `c` has left those in `bs`. */
  function UnsubscribedFrom(buckets: map<nat, SrvType>, bs: set<nat>, c: nat): (r: map<nat, SrvType>)
    ensures r.Keys == buckets.Keys
  {
    map b | b in buckets ::
      if b in bs then buckets[b].(subscribedClients := RemoveFirst(buckets[b].subscribedClients, c))
      else buckets[b]
  }

  function KeptTypes(r: Tables, c: nat, kept: seq<nat>): Tables
    requires c in r.connections
  {
    var st := r.connections[c];
    r.(buckets := UnsubscribedFrom(r.buckets, Dropped(st.connectionTypes, kept), c),
       connections := r.connections[c := st.(connectionTypes := kept)])
  }

  /** finalize as written: only every second listed bucket is left; then unsubscribeAll. */
  function Finalized(r: Tables, c: nat): Tables
    requires c in r.connections
  {
    UnsubscribedAll(KeptTypes(r, c, EnumerationSurvivors(r.connections[c].connectionTypes)), c)
  }

  /** finalize as intended: every listed bucket is left; then unsubscribeAll. */
  function Detached(r: Tables, c: nat): Tables
    requires c in r.connections
  {
    UnsubscribedAll(KeptTypes(r, c, []), c)
  }

  /** The identities of the buckets the names in `ns` lead to. */
  function IdsOf(allTypesByName: map<string, nat>, ns: set<string>): set<nat> {
    set n | n in ns && n in allTypesByName :: allTypesByName[n]
  }

  /** The buckets once those in `done` have been emptied by removeAllSrv. */
  function StoppedBuckets(buckets: map<nat, SrvType>, done: set<nat>, allServices: seq<Srv>): (r: map<nat, SrvType>)
    ensures r.Keys == buckets.Keys
  {
    map b | b in buckets :: if b in done then Z.RemoveEach(buckets[b], allServices) else buckets[b]
  }

  /** stopDiscovery: removeAllSrv on every current bucket; replaced buckets and allServices are left. */
  function Stopped(r: Tables): Tables {
    r.(buckets := StoppedBuckets(r.buckets, IdsOf(r.allTypesByName, r.allTypesByName.Keys), r.allServices))
  }

  /** Each current bucket of `order` as the notify loops see its subscribers. */
  function BucketTargets(r: Tables, order: seq<string>): (s: seq<seq<Target>>)
    requires Filed(r.allTypesByName, r.buckets) && forall n :: n in order ==> n in r.allTypesByName
    ensures |s| == |order|
    ensures forall i :: 0 <= i < |order| ==> s[i] == TargetsOf(r.connections, Current(r, order[i]).subscribedClients)
  {
    seq(|order|, i requires 0 <= i < |order| => TargetsOf(r.connections, Current(r, order[i]).subscribedClients))
  }

  datatype Outcome =
    | Handled
      /**
       * The message's type has no bucket, a removal's key is not indexed, or
       * subscribeAll replays to a connection without callbacks.
       */
    | NullPointer

  class Service {
    var allTypesByName: map<string, nat>
    var buckets: map<nat, SrvType>
    var allServices: seq<Srv>
    var subscribeAllClients: seq<nat>
    var allTypeSubscriptions: int
    var connections: map<nat, ConnectionState>
    var connectionSerialCounter: nat
    var nextSrvId: nat
    /** Identity for the next SrvType object. */
    var nextTypeId: nat
    var discoveryRunning: bool
    /** Acquisitions of the service's one multicast lock not yet released. */
    var lockHolds: int
    var address: seq<octet>
    const log: CallLog

    ghost function Snapshot(): Tables
      reads this`allTypesByName, this`buckets, this`allServices, this`subscribeAllClients, this`allTypeSubscriptions,
            this`connections, this`connectionSerialCounter, this`nextSrvId, this`nextTypeId
    {
      Tables(allTypesByName, buckets, allServices, subscribeAllClients, allTypeSubscriptions,
             connections, connectionSerialCounter, nextSrvId, nextTypeId)
    }

    ghost predicate LockValid()
      reads this`discoveryRunning, this`lockHolds
    {
      lockHolds == if discoveryRunning then 1 else 0
    }

    ghost predicate Valid()
      reads this, log
    {
      TablesValid(Snapshot()) && log.Valid() && LockValid()
    }

    /** onCreate up to the start attempt: the tables are empty and the one lock is created, not held. */
    constructor ()
      ensures Valid() && fresh(log) && log.calls == []
      ensures Snapshot() == Empty() && !discoveryRunning && lockHolds == 0
    {
      allTypesByName := map[];
      buckets := map[];
      allServices := [];
      subscribeAllClients := [];
      allTypeSubscriptions := 0;
      connections := map[];
      connectionSerialCounter := 0;
      nextSrvId := 0;
      nextTypeId := 0;
      discoveryRunning := false;
      lockHolds := 0;
      address := [];
      log := new CallLog();
    }

    method OnBind() returns (c: nat)
      modifies this`connections, this`connectionSerialCounter
      ensures c == old(connectionSerialCounter)
      ensures Snapshot() == Bind(old(Snapshot()))
    {
      c := connectionSerialCounter;
      connections := connections[c := ConnectionState(false, [], false)];
      connectionSerialCounter := connectionSerialCounter + 1;
    }

    method RegisterCallbacks(c: nat, present: bool)
      requires c in connections
      modifies this`connections
      ensures Snapshot() == WithCallbacks(old(Snapshot()), c, present)
    {
      connections := connections[c := connections[c].(hasCallbacks := present)];
    }

    /** ensureType: the identity of the type's bucket, created when the name has none. */
    method EnsureType(typeName: string) returns (b: nat)
      modifies this`allTypesByName, this`buckets, this`nextTypeId
      ensures b == EnsuredId(old(Snapshot()), typeName)
      ensures Snapshot() == EnsuredType(old(Snapshot()), typeName)
    {
      if typeName !in allTypesByName {
        b := nextTypeId;
        var t := NewBucket(typeName);
        nextTypeId := nextTypeId + 1;
        buckets := buckets[b := t];
        allTypesByName := allTypesByName[typeName := b];
        return;
      }
      b := allTypesByName[typeName];
    }

    method UpdateSrv(b: nat, srv: Srv)
      requires log.Valid() && b in buckets
      modifies log
      ensures log.Valid()
      ensures log.calls == old(log.calls) + FanOut(Updated, srv.key, TargetsOf(connections, buckets[b].subscribedClients),
                                                   TargetsOf(connections, subscribeAllClients))
    {
      log.FanOutEach(Updated, srv.key, TargetsOf(connections, buckets[b].subscribedClients),
                     TargetsOf(connections, subscribeAllClients));
    }

    method AddSrv(b: nat, srv: Srv)
      requires log.Valid() && b in buckets
      modifies this`buckets, log
      ensures log.Valid()
      ensures buckets == old(buckets)[b := Z.WithSrv(old(buckets[b]), srv)]
      ensures log.calls == old(log.calls) + FanOut(Updated, srv.key, TargetsOf(connections, buckets[b].subscribedClients),
                                                   TargetsOf(connections, subscribeAllClients))
    {
      var t := buckets[b];
      buckets := buckets[b := Z.WithSrv(t, srv)];
      UpdateSrv(b, srv);
    }

    method RemoveSrv(b: nat, srv: Srv)
      requires log.Valid() && b in buckets
      modifies this`buckets, log
      ensures log.Valid()
      ensures buckets == old(buckets)[b := Z.WithoutSrv(old(buckets[b]), srv)]
      ensures log.calls == old(log.calls) + FanOut(Removed, srv.key, TargetsOf(connections, buckets[b].subscribedClients),
                                                   TargetsOf(connections, subscribeAllClients))
    {
      var t := buckets[b];
      log.FanOutEach(Removed, srv.key, TargetsOf(connections, t.subscribedClients), TargetsOf(connections, subscribeAllClients));
      buckets := buckets[b := Z.WithoutSrv(t, srv)];
    }

    /** removeAllSrv: removeSrv on this bucket for every entry of the service-global allServices. */
    method RemoveAllSrv(b: nat)
      requires log.Valid() && b in buckets
      modifies this`buckets, log
      ensures log.Valid()
      ensures buckets == old(buckets)[b := Z.RemoveEach(old(buckets[b]), allServices)]
      ensures log.calls == old(log.calls) + RemoveAllCalls(TargetsOf(connections, buckets[b].subscribedClients),
                                                           TargetsOf(connections, subscribeAllClients), allServices)
    {
      var t := buckets[b];
      log.RemoveAllEach(TargetsOf(connections, t.subscribedClients), TargetsOf(connections, subscribeAllClients), allServices);
      buckets := buckets[b := Z.RemoveEach(t, allServices)];
    }

    /** subscribe: a new subscriber is appended and sent the bucket's entries, oldest first. */
    method Subscribe(b: nat, client: nat)
      requires log.Valid() && b in buckets
      modifies this`buckets, log
      ensures log.Valid()
      ensures var t := old(buckets[b]);
              if client in t.subscribedClients then
                buckets == old(buckets) && log.calls == old(log.calls)
              else
                && buckets == old(buckets)[b := t.(subscribedClients := t.subscribedClients + [client])]
                && log.calls == old(log.calls) + Replay(TargetOf(connections, client), t.typeServices)
    {
      var t := buckets[b];
      if client !in t.subscribedClients {
        buckets := buckets[b := t.(subscribedClients := t.subscribedClients + [client])];
        var target := TargetOf(connections, client);
        var srvs := t.typeServices;
        var i := 0;
        while i < |srvs|
          invariant 0 <= i <= |srvs| && log.Valid()
          invariant log.calls == old(log.calls) + Replay(target, srvs[..i])
          modifies log
        {
          ReplayPrefix(target, srvs, i);
          log.Notify(target, Updated, srvs[i].key);
          i := i + 1;
        }
        assert srvs[..i] == srvs;
      }
    }

    method Unsubscribe(b: nat, client: nat)
      requires b in buckets
      modifies this`buckets
      ensures var t := old(buckets[b]);
              buckets == old(buckets)[b := t.(subscribedClients := RemoveFirst(t.subscribedClients, client))]
    {
      var t := buckets[b];
      if client in t.subscribedClients {
        buckets := buckets[b := t.(subscribedClients := RemoveFirst(t.subscribedClients, client))];
      }
    }

    /** A type-added message: `new SrvType(name)` is put under the name. */
    method OnTypeAdded(typeName: string)
      modifies this`allTypesByName, this`buckets, this`nextTypeId
      ensures Snapshot() == AddedType(old(Snapshot()), typeName)
    {
      var t := NewBucket(typeName);
      var b := nextTypeId;
      nextTypeId := nextTypeId + 1;
      buckets := buckets[b := t];
      allTypesByName := allTypesByName[t.typeName := b];
    }

    /** A service-added message: the entry joins the type's bucket, which must exist, and the front of allServices. */
    method OnServiceAdded(e: ServiceEvent) returns (o: Outcome)
      requires log.Valid() && Filed(allTypesByName, buckets)
      modifies this`buckets, this`allServices, this`nextSrvId, log
      ensures log.Valid()
      ensures o == NullPointer <==> AddThrows(old(Snapshot()), e)
      ensures Snapshot() == AddedService(old(Snapshot()), e)
      ensures log.calls == old(log.calls) + MessageCalls(old(Snapshot()), ServiceAdded(e))
    {
      if e.typeName !in allTypesByName {
        return NullPointer;
      }
      var b := allTypesByName[e.typeName];
      var s := Srv(nextSrvId, e.typeName, e.name, e.key);
      nextSrvId := nextSrvId + 1;
      AddSrv(b, s);
      allServices := [s] + allServices;
      o := Handled;
    }

    /** A service-removed message: the entry its key indexes leaves the bucket and allServices. */
    method OnServiceRemoved(e: ServiceEvent) returns (o: Outcome)
      requires log.Valid() && Filed(allTypesByName, buckets)
      modifies this`buckets, this`allServices, log
      ensures log.Valid()
      ensures o == NullPointer <==> RemovalThrows(old(Snapshot()), e)
      ensures Snapshot() == RemovedService(old(Snapshot()), e)
      ensures log.calls == old(log.calls) + MessageCalls(old(Snapshot()), ServiceRemoved(e))
    {
      if e.typeName !in allTypesByName {
        return NullPointer;
      }
      var b := allTypesByName[e.typeName];
      var found := Z.GetSrvByKey(buckets[b], e.key);
      if found.None? {
        return NullPointer;
      }
      var s := found.value;
      RemoveSrv(b, s);
      allServices := RemoveFirst(allServices, s);
      o := Handled;
    }

    method HandleMessage(m: Message) returns (o: Outcome)
      requires log.Valid() && Filed(allTypesByName, buckets)
      modifies this`allTypesByName, this`buckets, this`nextTypeId, this`allServices, this`nextSrvId, log
      ensures log.Valid()
      ensures o == NullPointer <==> (m.ServiceAdded? && AddThrows(old(Snapshot()), m.event))
                                    || (m.ServiceRemoved? && RemovalThrows(old(Snapshot()), m.event))
      ensures Snapshot() == AfterMessage(old(Snapshot()), m)
      ensures log.calls == old(log.calls) + MessageCalls(old(Snapshot()), m)
    {
      match m
      case TypeAdded(typeName) =>
        OnTypeAdded(typeName);
        o := Handled;
      case ServiceAdded(e) =>
        o := OnServiceAdded(e);
      case ServiceRemoved(e) =>
        o := OnServiceRemoved(e);
      case ServiceResolved(e) =>
        o := Handled;
    }

    /** prenotifySubscribeAll: serviceUpdated for every entry of allServices, newest first, with no null test. */
    method PrenotifySubscribeAll(c: nat) returns (o: Outcome)
      requires log.Valid() && c in connections
      modifies log
      ensures log.Valid()
      ensures o == NullPointer <==> !connections[c].hasCallbacks && allServices != []
      ensures log.calls == old(log.calls) + if o == NullPointer then [] else Updates(c, allServices)
    {
      if !connections[c].hasCallbacks && allServices != [] {
        // the first serviceUpdated is called on null callbacks
        return NullPointer;
      }
      o := Handled;
      var all := allServices;
      var i := 0;
      while i < |all|
        invariant 0 <= i <= |all| && log.Valid()
        invariant log.calls == old(log.calls) + Updates(c, all[..i])
      {
        UpdatesPrefix(c, all, i);
        log.Callback(c, Updated, all[i].key);
        i := i + 1;
      }
      assert all[..i] == all;
    }

    method SubscribeAll(c: nat) returns (o: Outcome)
      requires log.Valid() && c in connections
      modifies this`connections, this`allTypeSubscriptions, this`subscribeAllClients, log
      ensures log.Valid()
      ensures Snapshot() == SubscribedAll(old(Snapshot()), c)
      ensures o == NullPointer <==>
                !old(connections[c].connectionAllTypes) && !old(connections[c].hasCallbacks) && allServices != []
      ensures log.calls == old(log.calls) +
                if old(connections[c].connectionAllTypes) || o == NullPointer then [] else Updates(c, allServices)
    {
      o := Handled;
      if !connections[c].connectionAllTypes {
        connections := connections[c := connections[c].(connectionAllTypes := true)];
        allTypeSubscriptions := allTypeSubscriptions + 1;
        subscribeAllClients := subscribeAllClients + [c];
        // throws after the flag, the counter and the list have changed
        o := PrenotifySubscribeAll(c);
      }
    }

    method UnsubscribeAll(c: nat)
      requires c in connections
      modifies this`connections, this`allTypeSubscriptions, this`subscribeAllClients
      ensures Snapshot() == UnsubscribedAll(old(Snapshot()), c)
    {
      if connections[c].connectionAllTypes {
        allTypeSubscriptions := allTypeSubscriptions - 1;
        connections := connections[c := connections[c].(connectionAllTypes := false)];
        subscribeAllClients := RemoveFirst(subscribeAllClients, c);
      }
    }

    method SubscribeType(c: nat, typeName: string)
      requires log.Valid() && c in connections && Filed(allTypesByName, buckets)
      modifies this`allTypesByName, this`buckets, this`nextTypeId, this`connections, log
      ensures log.Valid()
      ensures Snapshot() == SubscribedType(old(Snapshot()), c, typeName)
      ensures log.calls == old(log.calls) + SubscribeTypeCalls(old(Snapshot()), c, typeName)
    {
      var b := EnsureType(typeName);
      var st := connections[c];
      if b !in st.connectionTypes {
        connections := connections[c := st.(connectionTypes := st.connectionTypes + [b])];
        Subscribe(b, c);
      }
    }

    method UnsubscribeType(c: nat, typeName: string)
      requires c in connections && Filed(allTypesByName, buckets)
      modifies this`allTypesByName, this`buckets, this`nextTypeId, this`connections
      ensures Snapshot() == UnsubscribedType(old(Snapshot()), c, typeName)
    {
      var b := EnsureType(typeName);
      var st := connections[c];
      if b in st.connectionTypes {
        connections := connections[c := st.(connectionTypes := RemoveFirst(st.connectionTypes, b))];
        Unsubscribe(b, c);
      }
    }

    /** finalize as written: the removing enumeration over connectionTypes, then unsubscribeAll. */
    method Finalize(c: nat)
      requires c in connections
      requires Distinct(connections[c].connectionTypes)
      requires forall b :: b in connections[c].connectionTypes ==> b in buckets
      modifies this`buckets, this`connections, this`allTypeSubscriptions, this`subscribeAllClients
      ensures Snapshot() == Finalized(old(Snapshot()), c)
    {
      var st := connections[c];
      var types := EnumerateUnsubscribing(c, st.connectionTypes);
      connections := connections[c := st.(connectionTypes := types)];
      UnsubscribeAll(c);
    }

    method EnumerateUnsubscribing(c: nat, o: seq<nat>) returns (types: seq<nat>)
      requires Distinct(o) && forall b :: b in o ==> b in buckets
      modifies this`buckets
      ensures types == EnumerationSurvivors(o)
      ensures buckets == UnsubscribedFrom(old(buckets), Dropped(o, types), c)
    {
      ghost var buckets0 := buckets;
      types := o;
      var k := 0;
      assert EnumerationCursor(o, 0) == o by {
        assert o[..0] == [] && o[0..] == o;
      }
      assert Dropped(o, o) == {};
      while k < |types|
        invariant 2 * k <= |o| + 1
        invariant types == EnumerationCursor(o, k) && Distinct(types)
        invariant buckets == UnsubscribedFrom(buckets0, Dropped(o, types), c)
      {
        EnumerationCursorStep(o, k);
        var b := types[k];
        assert b == o[2 * k] && b in buckets0;
        k := k + 1;
        if b in types {
          DroppedStep(o, types, b);
          UnsubscribedFromStep(buckets0, Dropped(o, types), b, c);
          types := RemoveFirst(types, b);
          Unsubscribe(b, c);
        }
      }
      EnumerationCursorEnd(o, k);
    }

    /**
     * startDiscovery: unless discovery already runs, wifi must be enabled
     * and the connection info present; the service's one lock is acquired,
     * and released again when JmDNS cannot be created.
     */
    method StartDiscovery(env: WifiEnv) returns (listener: Z.SrvTypeListener?)
      requires LockValid()
      modifies this`discoveryRunning, this`lockHolds, this`address
      ensures LockValid()
      ensures old(discoveryRunning) ==> discoveryRunning && address == old(address)
      ensures !old(discoveryRunning) ==> (discoveryRunning <==> StartSucceeds(env))
      ensures !old(discoveryRunning) && discoveryRunning ==> address == AddressBytes(env.connectionInfo.value)
      ensures !old(discoveryRunning) && !discoveryRunning ==> address == old(address)
      ensures listener != null <==> !old(discoveryRunning) && discoveryRunning
      ensures listener != null ==> fresh(listener) && listener.Valid() && listener.seenTypes == {}
    {
      listener := null;
      if discoveryRunning {
        return;
      }
      if env.wifiState != WIFI_STATE_ENABLED {
        return;
      }
      if env.connectionInfo.None? {
        return;
      }
      var addressBytes := AddressBytes(env.connectionInfo.value);
      lockHolds := lockHolds + 1;
      if env.createOk {
        discoveryRunning := true;
        address := addressBytes;
        listener := new Z.SrvTypeListener();
      } else {
        lockHolds := lockHolds - 1;
      }
    }

    /**
     * stopDiscovery: when discovery runs, mDNS is cleared, removeAllSrv
     * empties the current bucket of every name in the order the type table
     * yields them (`order`), and the lock is released.
     */
    method StopDiscovery() returns (ghost order: seq<string>)
      requires log.Valid() && LockValid() && Filed(allTypesByName, buckets)
      modifies this`buckets, this`discoveryRunning, this`lockHolds, log
      ensures log.Valid() && LockValid() && !discoveryRunning
      ensures !old(discoveryRunning) ==> Snapshot() == old(Snapshot()) && log.calls == old(log.calls)
      ensures old(discoveryRunning) ==>
                && Snapshot() == Stopped(old(Snapshot()))
                && Distinct(order) && (forall n :: n in order <==> n in allTypesByName)
                && log.calls == old(log.calls) + StopCalls(BucketTargets(old(Snapshot()), order),
                                                           TargetsOf(connections, subscribeAllClients), allServices)
    {
      order := [];
      if !discoveryRunning {
        return;
      }
      discoveryRunning := false;
      order := RemoveAllTypes();
      lockHolds := lockHolds - 1;
    }

    /** stopDiscovery's loop: removeAllSrv on the current bucket of every name, in the order `order`. */
    method RemoveAllTypes() returns (ghost order: seq<string>)
      requires log.Valid() && Filed(allTypesByName, buckets)
      modifies this`buckets, log
      ensures log.Valid()
      ensures buckets == StoppedBuckets(old(buckets), IdsOf(allTypesByName, allTypesByName.Keys), allServices)
      ensures Distinct(order) && (forall n :: n in order <==> n in allTypesByName)
      ensures log.calls == old(log.calls) + StopCalls(BucketTargets(old(Snapshot()), order),
                                                      TargetsOf(connections, subscribeAllClients), allServices)
    {
      order := [];
      ghost var r0 := Snapshot();
      ghost var allTargets := TargetsOf(connections, subscribeAllClients);
      var names := allTypesByName.Keys;
      ghost var done: set<string> := {};
      while names != {}
        invariant names + done == allTypesByName.Keys && names !! done
        invariant Distinct(order) && forall n :: n in order <==> n in done
        invariant buckets == StoppedBuckets(r0.buckets, IdsOf(allTypesByName, done), allServices)
        invariant log.Valid()
        invariant log.calls == old(log.calls) + StopCalls(BucketTargets(r0, order), allTargets, allServices)
        decreases names
      {
        var n :| n in names;
        var b := allTypesByName[n];
        ghost var ts := TargetsOf(connections, Current(r0, n).subscribedClients);
        ghost var before := StopCalls(BucketTargets(r0, order), allTargets, allServices);
        IdsOfStep(allTypesByName, r0.buckets, done, n);
        StoppedBucketsStep(r0.buckets, IdsOf(allTypesByName, done), b, allServices);
        StopCallsAppend(r0, order, n, allTargets);
        RemoveAllSrv(b);
        Concat3(old(log.calls), before, RemoveAllCalls(ts, allTargets, allServices));
        DistinctAppend(order, n);
        order := order + [n];
        done := done + {n};
        names := names - {n};
      }
    }

    /**
     * The connection-state listener: on every connectivity broadcast,
     * discovery is started when wifi is enabled and stopped otherwise.
     */
    method OnReceive(env: WifiEnv) returns (ghost action: Action, ghost order: seq<string>)
      requires log.Valid() && LockValid() && Filed(allTypesByName, buckets)
      modifies this`buckets, this`discoveryRunning, this`lockHolds, this`address, log
      ensures log.Valid() && LockValid()
      ensures action == ActionFor(env.wifiState)
      ensures action == StartAction ==> Snapshot() == old(Snapshot()) && log.calls == old(log.calls)
                                        && (discoveryRunning <==> old(discoveryRunning) || StartSucceeds(env))
      ensures action == StopAction ==> !discoveryRunning
                                       && Snapshot() == if old(discoveryRunning) then Stopped(old(Snapshot())) else old(Snapshot())
      ensures action == StopAction && !old(discoveryRunning) ==> log.calls == old(log.calls)
      ensures action == StopAction && old(discoveryRunning) ==>
                && Distinct(order) && (forall n :: n in order <==> n in old(allTypesByName))
                && log.calls == old(log.calls) + StopCalls(BucketTargets(old(Snapshot()), order),
                                                           TargetsOf(old(connections), old(subscribeAllClients)),
                                                           old(allServices))
    {
      action := ActionFor(env.wifiState);
      order := [];
      if env.wifiState == WIFI_STATE_ENABLED {
        var listener := StartDiscovery(env);
      } else {
        order := StopDiscovery();
      }
    }
  }

  // ---- Steps of the loops above ----

  lemma UnsubscribedFromStep(buckets: map<nat, SrvType>, gone: set<nat>, b: nat, c: nat)
    requires b in buckets && b !in gone
    ensures UnsubscribedFrom(buckets, gone + {b}, c)
            == UnsubscribedFrom(buckets, gone, c)[b := buckets[b].(subscribedClients := RemoveFirst(buckets[b].subscribedClients, c))]
  {
  }

  lemma StoppedBucketsStep(buckets: map<nat, SrvType>, done: set<nat>, b: nat, allServices: seq<Srv>)
    requires b in buckets && b !in done
    ensures StoppedBuckets(buckets, done + {b}, allServices)
            == StoppedBuckets(buckets, done, allServices)[b := Z.RemoveEach(buckets[b], allServices)]
  {
  }

  /** One more bucket emptied by stopDiscovery's loop, with its removal calls. */
  lemma StopCallsAppend(r: Tables, order: seq<string>, n: string, allTargets: seq<Target>)
    requires Filed(r.allTypesByName, r.buckets) && n in r.allTypesByName
    requires forall m :: m in order ==> m in r.allTypesByName
    ensures StopCalls(BucketTargets(r, order + [n]), allTargets, r.allServices)
            == StopCalls(BucketTargets(r, order), allTargets, r.allServices)
               + RemoveAllCalls(TargetsOf(r.connections, Current(r, n).subscribedClients), allTargets, r.allServices)
  {
    var ts := TargetsOf(r.connections, Current(r, n).subscribedClients);
    assert BucketTargets(r, order + [n]) == BucketTargets(r, order) + [ts];
    StopCallsStep(BucketTargets(r, order), ts, allTargets, r.allServices);
  }

  /** Another name leads to another bucket, so stopDiscovery empties each bucket once. */
  lemma IdsOfStep(allTypesByName: map<string, nat>, buckets: map<nat, SrvType>, done: set<string>, n: string)
    requires Filed(allTypesByName, buckets) && n in allTypesByName && n !in done
    ensures allTypesByName[n] in buckets && allTypesByName[n] !in IdsOf(allTypesByName, done)
    ensures IdsOf(allTypesByName, done + {n}) == IdsOf(allTypesByName, done) + {allTypesByName[n]}
  {
    assert allTypesByName[n] !in IdsOf(allTypesByName, done) by {
      forall m | m in done && m in allTypesByName ensures allTypesByName[m] != allTypesByName[n] {
        assert buckets[allTypesByName[m]].typeName == m;
      }
    }
  }

  // ---- Every state change keeps the tables consistent ----

  lemma BindKeeps(r: Tables)
    requires TablesValid(r)
    ensures TablesValid(Bind(r))
  {
    assert forall d :: d in r.connections ==> d < r.connectionSerialCounter by {
      forall d | d in r.connections ensures d < r.connectionSerialCounter {
        assert ConnectionValid(d, r.connections[d], r.buckets, r.subscribeAllClients, r.connectionSerialCounter);
      }
    }
    var r' := Bind(r);
    forall b | b in r'.buckets ensures BucketValid(r'.buckets[b], r'.allServices, r'.connections) {
      assert BucketValid(r.buckets[b], r.allServices, r.connections);
    }
  }

  lemma WithCallbacksKeeps(r: Tables, c: nat, present: bool)
    requires TablesValid(r) && c in r.connections
    ensures TablesValid(WithCallbacks(r, c, present))
  {
    var r' := WithCallbacks(r, c, present);
    forall b | b in r'.buckets ensures BucketValid(r'.buckets[b], r'.allServices, r'.connections) {
      assert BucketValid(r.buckets[b], r.allServices, r.connections);
    }
  }

  /** A type-added message keeps the registry consistent: nobody lists or subscribes to the new bucket. */
  lemma AddedTypeKeeps(r: Tables, n: string)
    requires TablesValid(r)
    ensures TablesValid(AddedType(r, n))
  {
    var r' := AddedType(r, n);
    var b := r.nextTypeId;
    assert b !in r.buckets;
    forall c | c in r'.connections ensures b !in r'.connections[c].connectionTypes {
      assert ConnectionValid(c, r.connections[c], r.buckets, r.subscribeAllClients, r.connectionSerialCounter);
    }
    forall c | c in r'.connections
      ensures ConnectionValid(c, r'.connections[c], r'.buckets, r'.subscribeAllClients, r'.connectionSerialCounter)
    {
      assert ConnectionValid(c, r.connections[c], r.buckets, r.subscribeAllClients, r.connectionSerialCounter);
    }
  }

  lemma EnsuredTypeKeeps(r: Tables, n: string)
    requires TablesValid(r)
    ensures TablesValid(EnsuredType(r, n))
  {
    if n !in r.allTypesByName {
      AddedTypeKeeps(r, n);
    }
  }

  /** The bucket that gains the newest entry stays ordered, indexed and inside allServices. */
  lemma AddedBucketValid(t: SrvType, s: Srv, allServices: seq<Srv>, connections: map<nat, ConnectionState>)
    requires BucketValid(t, allServices, connections)
    requires forall x :: x in allServices ==> x.id < s.id
    ensures BucketValid(Z.WithSrv(t, s), [s] + allServices, connections)
  {
    assert forall x :: x in t.typeServices ==> x.id < s.id;
  }

  /** A service-added message keeps the registry consistent: the new entry is held by its bucket alone. */
  lemma AddedServiceKeeps(r: Tables, e: ServiceEvent)
    requires TablesValid(r)
    ensures TablesValid(AddedService(r, e))
  {
    if !AddThrows(r, e) {
      AddedBucketsValid(r, e);
      AddedEntriesOwned(r, e);
      SameSubscriptions(r, AddedService(r, e));
      AddedServicesOrdered(r, e);
      SameNames(r, AddedService(r, e));
    }
  }

  /** The new entry, with the largest id, goes to the front of allServices. */
  lemma AddedServicesOrdered(r: Tables, e: ServiceEvent)
    requires ServicesOrdered(r) && !AddThrows(r, e)
    ensures ServicesOrdered(r.(allServices := [NewSrv(r, e)] + r.allServices, nextSrvId := r.nextSrvId + 1))
  {
  }

  /** Buckets that keep their type names keep the type table filed. */
  lemma SameNames(r: Tables, r': Tables)
    requires Filed(r.allTypesByName, r.buckets)
    requires r'.allTypesByName == r.allTypesByName && r'.buckets.Keys == r.buckets.Keys
    requires forall b :: b in r.buckets ==> r'.buckets[b].typeName == r.buckets[b].typeName
    ensures Filed(r'.allTypesByName, r'.buckets)
  {
  }

  lemma AddedBucketsValid(r: Tables, e: ServiceEvent)
    requires TablesValid(r) && !AddThrows(r, e)
    ensures BucketsValid(AddedService(r, e))
  {
    var b := r.allTypesByName[e.typeName];
    var s := NewSrv(r, e);
    var r' := AddedService(r, e);
    assert BucketValid(r.buckets[b], r.allServices, r.connections);
    AddedBucketValid(r.buckets[b], s, r.allServices, r.connections);
    forall a | a in r'.buckets ensures a < r'.nextTypeId && BucketValid(r'.buckets[a], r'.allServices, r'.connections) {
      assert BucketValid(r.buckets[a], r.allServices, r.connections);
    }
  }

  lemma AddedEntriesOwned(r: Tables, e: ServiceEvent)
    requires TablesValid(r) && !AddThrows(r, e)
    ensures EntriesOwned(AddedService(r, e))
  {
    var b := r.allTypesByName[e.typeName];
    var s := NewSrv(r, e);
    var r' := AddedService(r, e);
    forall a | a in r.buckets ensures s !in r.buckets[a].typeServices {
      assert BucketValid(r.buckets[a], r.allServices, r.connections);
    }
    forall a, a', x | a in r'.buckets && a' in r'.buckets && x in r'.buckets[a].typeServices && x in r'.buckets[a'].typeServices
      ensures a == a'
    {
      assert x == s || x in r.buckets[a].typeServices;
      assert x == s || x in r.buckets[a'].typeServices;
    }
  }

  /**
   * A change to the buckets' entries that leaves every subscriber list,
   * every connection and the all-types subscribers as they were keeps the
   * subscription records consistent.
   */
  lemma SameSubscriptions(r: Tables, r': Tables)
    requires ConnectionsValid(r) && SubscriptionsRecorded(r) && AllTypesRecorded(r)
    requires r'.connections == r.connections && r'.subscribeAllClients == r.subscribeAllClients
    requires r'.allTypeSubscriptions == r.allTypeSubscriptions && r'.connectionSerialCounter == r.connectionSerialCounter
    requires r'.buckets.Keys == r.buckets.Keys
    requires forall b :: b in r.buckets ==> r'.buckets[b].subscribedClients == r.buckets[b].subscribedClients
    ensures ConnectionsValid(r') && SubscriptionsRecorded(r') && AllTypesRecorded(r')
  {
    forall c | c in r'.connections
      ensures ConnectionValid(c, r'.connections[c], r'.buckets, r'.subscribeAllClients, r'.connectionSerialCounter)
    {
      assert ConnectionValid(c, r.connections[c], r.buckets, r.subscribeAllClients, r.connectionSerialCounter);
    }
  }

  /** The bucket that loses an entry stays ordered, indexed and inside what is left of allServices. */
  lemma RemovedBucketValid(t: SrvType, s: Srv, allServices: seq<Srv>, connections: map<nat, ConnectionState>)
    requires BucketValid(t, allServices, connections) && NewestFirst(allServices) && s in t.typeServices
    ensures BucketValid(Z.WithoutSrv(t, s), RemoveFirst(allServices, s), connections)
  {
    OrderedDistinct(allServices);
    RemoveFirstDistinct(allServices, s);
    OrderedDistinct(t.typeServices);
    RemoveFirstDistinct(t.typeServices, s);
    RemoveKeepsOldestFirst(t.typeServices, s);
    var t' := Z.WithoutSrv(t, s);
    forall k | k in t'.servicesByKey ensures t'.servicesByKey[k] in t'.typeServices {
      assert t.servicesByKey[k] != s;
    }
  }

  /** A bucket that does not hold the removed entry still has all its entries in allServices. */
  lemma OtherBucketValid(t: SrvType, s: Srv, allServices: seq<Srv>, connections: map<nat, ConnectionState>)
    requires BucketValid(t, allServices, connections) && NewestFirst(allServices) && s !in t.typeServices
    ensures BucketValid(t, RemoveFirst(allServices, s), connections)
  {
    OrderedDistinct(allServices);
    RemoveFirstDistinct(allServices, s);
  }

  /** A service-removed message keeps the registry consistent: no other bucket holds the entry removed. */
  lemma RemovedServiceKeeps(r: Tables, e: ServiceEvent)
    requires TablesValid(r)
    ensures TablesValid(RemovedService(r, e))
  {
    if !RemovalThrows(r, e) {
      RemovedBucketsValid(r, e);
      RemovedEntriesOwned(r, e);
      SameSubscriptions(r, RemovedService(r, e));
      SameNames(r, RemovedService(r, e));
      var s := Current(r, e.typeName).servicesByKey[e.key];
      RemoveKeepsNewestFirst(r.allServices, s);
      RemoveFirstSubset(r.allServices, s);
    }
  }

  lemma RemovedBucketsValid(r: Tables, e: ServiceEvent)
    requires TablesValid(r) && !RemovalThrows(r, e)
    ensures BucketsValid(RemovedService(r, e))
  {
    var b := r.allTypesByName[e.typeName];
    var t := r.buckets[b];
    var s := t.servicesByKey[e.key];
    var r' := RemovedService(r, e);
    assert BucketValid(t, r.allServices, r.connections);
    RemovedBucketValid(t, s, r.allServices, r.connections);
    forall a | a in r'.buckets && a != b ensures BucketValid(r'.buckets[a], r'.allServices, r'.connections) {
      assert BucketValid(r.buckets[a], r.allServices, r.connections);
      OtherBucketValid(r.buckets[a], s, r.allServices, r.connections);
    }
  }

  lemma RemovedEntriesOwned(r: Tables, e: ServiceEvent)
    requires TablesValid(r) && !RemovalThrows(r, e)
    ensures EntriesOwned(RemovedService(r, e))
  {
    var b := r.allTypesByName[e.typeName];
    var t := r.buckets[b];
    var s := t.servicesByKey[e.key];
    var r' := RemovedService(r, e);
    forall a, a', x | a in r'.buckets && a' in r'.buckets && x in r'.buckets[a].typeServices && x in r'.buckets[a'].typeServices
      ensures a == a'
    {
      RemoveFirstSubset(t.typeServices, s);
    }
  }

  lemma MessageKeeps(r: Tables, m: Message)
    requires TablesValid(r)
    ensures TablesValid(AfterMessage(r, m))
  {
    match m
    case TypeAdded(n) => AddedTypeKeeps(r, n);
    case ServiceAdded(e) => AddedServiceKeeps(r, e);
    case ServiceRemoved(e) => RemovedServiceKeeps(r, e);
    case ServiceResolved(_) =>
  }

  lemma SubscribedAllKeeps(r: Tables, c: nat)
    requires TablesValid(r) && c in r.connections
    ensures TablesValid(SubscribedAll(r, c))
  {
    var r' := SubscribedAll(r, c);
    if !r.connections[c].connectionAllTypes {
      assert ConnectionValid(c, r.connections[c], r.buckets, r.subscribeAllClients, r.connectionSerialCounter);
      DistinctAppend(r.subscribeAllClients, c);
      forall b | b in r'.buckets ensures BucketValid(r'.buckets[b], r'.allServices, r'.connections) {
        assert BucketValid(r.buckets[b], r.allServices, r.connections);
      }
    }
  }

  lemma UnsubscribedAllKeeps(r: Tables, c: nat)
    requires TablesValid(r) && c in r.connections
    ensures TablesValid(UnsubscribedAll(r, c))
  {
    var r' := UnsubscribedAll(r, c);
    if r.connections[c].connectionAllTypes {
      assert ConnectionValid(c, r.connections[c], r.buckets, r.subscribeAllClients, r.connectionSerialCounter);
      RemoveFirstDistinct(r.subscribeAllClients, c);
      forall b | b in r'.buckets ensures BucketValid(r'.buckets[b], r'.allServices, r'.connections) {
        assert BucketValid(r.buckets[b], r.allServices, r.connections);
      }
    }
  }

  /** Connection `c` lists bucket `b` and subscribes to it. */
  function Joined(r: Tables, c: nat, b: nat): Tables
    requires c in r.connections && b in r.buckets
  {
    var st := r.connections[c];
    var t := r.buckets[b];
    r.(connections := r.connections[c := st.(connectionTypes := st.connectionTypes + [b])],
       buckets := r.buckets[b := t.(subscribedClients := t.subscribedClients + [c])])
  }

  /** Connection `c` stops listing bucket `b` and leaves its subscribers. */
  function Left(r: Tables, c: nat, b: nat): Tables
    requires c in r.connections && b in r.buckets
  {
    var st := r.connections[c];
    var t := r.buckets[b];
    r.(connections := r.connections[c := st.(connectionTypes := RemoveFirst(st.connectionTypes, b))],
       buckets := r.buckets[b := t.(subscribedClients := RemoveFirst(t.subscribedClients, c))])
  }

  /** A connection joining a bucket it does not list, recorded on both sides. */
  lemma JoinBucketKeeps(r: Tables, c: nat, b: nat)
    requires TablesValid(r) && c in r.connections && b in r.buckets
    requires b !in r.connections[c].connectionTypes
    ensures TablesValid(Joined(r, c, b))
  {
    JoinedBucketsValid(r, c, b);
    JoinedConnectionsValid(r, c, b);
  }

  lemma JoinedBucketsValid(r: Tables, c: nat, b: nat)
    requires TablesValid(r) && c in r.connections && b in r.buckets
    requires b !in r.connections[c].connectionTypes
    ensures BucketsValid(Joined(r, c, b))
  {
    var t := r.buckets[b];
    assert BucketValid(t, r.allServices, r.connections);
    DistinctAppend(t.subscribedClients, c);
    var r' := Joined(r, c, b);
    forall a | a in r'.buckets ensures a < r'.nextTypeId && BucketValid(r'.buckets[a], r'.allServices, r'.connections) {
      assert BucketValid(r.buckets[a], r.allServices, r.connections);
    }
  }

  lemma JoinedConnectionsValid(r: Tables, c: nat, b: nat)
    requires TablesValid(r) && c in r.connections && b in r.buckets
    requires b !in r.connections[c].connectionTypes
    ensures ConnectionsValid(Joined(r, c, b))
  {
    var st := r.connections[c];
    assert ConnectionValid(c, st, r.buckets, r.subscribeAllClients, r.connectionSerialCounter);
    DistinctAppend(st.connectionTypes, b);
    var r' := Joined(r, c, b);
    forall d | d in r'.connections
      ensures ConnectionValid(d, r'.connections[d], r'.buckets, r'.subscribeAllClients, r'.connectionSerialCounter)
    {
      assert ConnectionValid(d, r.connections[d], r.buckets, r.subscribeAllClients, r.connectionSerialCounter);
    }
  }

  /** A connection leaving a bucket it lists, recorded on both sides. */
  lemma LeaveBucketKeeps(r: Tables, c: nat, b: nat)
    requires TablesValid(r) && c in r.connections && b in r.buckets
    requires b in r.connections[c].connectionTypes
    ensures TablesValid(Left(r, c, b))
  {
    LeftBucketsValid(r, c, b);
    LeftConnectionsValid(r, c, b);
    var st := r.connections[c];
    var t := r.buckets[b];
    assert BucketValid(t, r.allServices, r.connections);
    assert ConnectionValid(c, st, r.buckets, r.subscribeAllClients, r.connectionSerialCounter);
    RemoveFirstDistinct(t.subscribedClients, c);
    RemoveFirstDistinct(st.connectionTypes, b);
  }

  lemma LeftBucketsValid(r: Tables, c: nat, b: nat)
    requires TablesValid(r) && c in r.connections && b in r.buckets
    ensures BucketsValid(Left(r, c, b))
  {
    var t := r.buckets[b];
    assert BucketValid(t, r.allServices, r.connections);
    RemoveFirstDistinct(t.subscribedClients, c);
    RemoveFirstSubset(t.subscribedClients, c);
    var r' := Left(r, c, b);
    forall a | a in r'.buckets ensures a < r'.nextTypeId && BucketValid(r'.buckets[a], r'.allServices, r'.connections) {
      assert BucketValid(r.buckets[a], r.allServices, r.connections);
    }
  }

  lemma LeftConnectionsValid(r: Tables, c: nat, b: nat)
    requires TablesValid(r) && c in r.connections && b in r.buckets
    ensures ConnectionsValid(Left(r, c, b))
  {
    var st := r.connections[c];
    assert ConnectionValid(c, st, r.buckets, r.subscribeAllClients, r.connectionSerialCounter);
    RemoveFirstDistinct(st.connectionTypes, b);
    RemoveFirstSubset(st.connectionTypes, b);
    var r' := Left(r, c, b);
    forall d | d in r'.connections
      ensures ConnectionValid(d, r'.connections[d], r'.buckets, r'.subscribeAllClients, r'.connectionSerialCounter)
    {
      assert ConnectionValid(d, r.connections[d], r.buckets, r.subscribeAllClients, r.connectionSerialCounter);
    }
  }

  lemma SubscribedTypeKeeps(r: Tables, c: nat, n: string)
    requires TablesValid(r) && c in r.connections
    ensures TablesValid(SubscribedType(r, c, n))
  {
    EnsuredTypeKeeps(r, n);
    var r1 := EnsuredType(r, n);
    var b := EnsuredId(r, n);
    if b !in r.connections[c].connectionTypes {
      assert r1.connections == r.connections;
      assert SubscriptionsRecorded(r1);
      assert c !in r1.buckets[b].subscribedClients;
      JoinBucketKeeps(r1, c, b);
      assert SubscribedType(r, c, n) == Joined(r1, c, b);
    }
  }

  lemma UnsubscribedTypeKeeps(r: Tables, c: nat, n: string)
    requires TablesValid(r) && c in r.connections
    ensures TablesValid(UnsubscribedType(r, c, n))
  {
    EnsuredTypeKeeps(r, n);
    var r1 := EnsuredType(r, n);
    var b := EnsuredId(r, n);
    if b in r.connections[c].connectionTypes {
      assert r1.connections == r.connections;
      LeaveBucketKeeps(r1, c, b);
      assert UnsubscribedType(r, c, n) == Left(r1, c, b);
    }
  }

  lemma KeepTypesKeeps(r: Tables, c: nat, kept: seq<nat>)
    requires TablesValid(r) && c in r.connections
    requires Distinct(kept) && forall b :: b in kept ==> b in r.connections[c].connectionTypes
    ensures TablesValid(KeptTypes(r, c, kept))
  {
    KeptBucketsValid(r, c, kept);
    KeptConnectionsValid(r, c, kept);
    KeptSubscriptionsRecorded(r, c, kept);
    SameNames(r, KeptTypes(r, c, kept));
  }

  lemma KeptBucketsValid(r: Tables, c: nat, kept: seq<nat>)
    requires TablesValid(r) && c in r.connections
    ensures BucketsValid(KeptTypes(r, c, kept))
  {
    var r' := KeptTypes(r, c, kept);
    forall b | b in r'.buckets ensures b < r'.nextTypeId && BucketValid(r'.buckets[b], r'.allServices, r'.connections)
    {
      var t := r.buckets[b];
      assert BucketValid(t, r.allServices, r.connections);
      RemoveFirstDistinct(t.subscribedClients, c);
      RemoveFirstSubset(t.subscribedClients, c);
    }
  }

  lemma KeptConnectionsValid(r: Tables, c: nat, kept: seq<nat>)
    requires TablesValid(r) && c in r.connections
    requires Distinct(kept) && forall b :: b in kept ==> b in r.connections[c].connectionTypes
    ensures ConnectionsValid(KeptTypes(r, c, kept))
  {
    var r' := KeptTypes(r, c, kept);
    forall d | d in r'.connections
      ensures ConnectionValid(d, r'.connections[d], r'.buckets, r'.subscribeAllClients, r'.connectionSerialCounter)
    {
      assert ConnectionValid(d, r.connections[d], r.buckets, r.subscribeAllClients, r.connectionSerialCounter);
    }
  }

  lemma KeptSubscriptionsRecorded(r: Tables, c: nat, kept: seq<nat>)
    requires TablesValid(r) && c in r.connections
    requires forall b :: b in kept ==> b in r.connections[c].connectionTypes
    ensures SubscriptionsRecorded(KeptTypes(r, c, kept))
  {
    var st := r.connections[c];
    var dropped := Dropped(st.connectionTypes, kept);
    var r' := KeptTypes(r, c, kept);
    forall d, b | d in r'.connections && b in r'.buckets
      ensures b in r'.connections[d].connectionTypes <==> d in r'.buckets[b].subscribedClients
    {
      var t := r.buckets[b];
      assert BucketValid(t, r.allServices, r.connections);
      assert b in kept ==> b in st.connectionTypes;
      CrossAfterLeaving(b, d, c, r.connections[d].connectionTypes, r'.connections[d].connectionTypes,
                        t.subscribedClients, r'.buckets[b].subscribedClients, dropped);
    }
  }


  lemma FinalizedKeeps(r: Tables, c: nat)
    requires TablesValid(r) && c in r.connections
    ensures TablesValid(Finalized(r, c))
  {
    var st := r.connections[c];
    assert ConnectionValid(c, st, r.buckets, r.subscribeAllClients, r.connectionSerialCounter);
    SurvivorsSubset(st.connectionTypes);
    SurvivorsDistinct(st.connectionTypes);
    KeepTypesKeeps(r, c, EnumerationSurvivors(st.connectionTypes));
    UnsubscribedAllKeeps(KeptTypes(r, c, EnumerationSurvivors(st.connectionTypes)), c);
  }

  lemma DetachedKeeps(r: Tables, c: nat)
    requires TablesValid(r) && c in r.connections
    ensures TablesValid(Detached(r, c))
  {
    KeepTypesKeeps(r, c, []);
    UnsubscribedAllKeeps(KeptTypes(r, c, []), c);
  }

  /**
   * stopDiscovery empties the current bucket of every name, keeping its
   * subscribers; replaced buckets, allServices and the connections are left.
   */
  lemma StopEmptiesBuckets(r: Tables)
    requires TablesValid(r)
    ensures Stopped(r).buckets.Keys == r.buckets.Keys && Stopped(r).allTypesByName == r.allTypesByName
    ensures forall n :: n in r.allTypesByName ==>
              Current(Stopped(r), n) == Current(r, n).(typeServices := [], servicesByKey := map[])
    ensures forall b :: b in r.buckets && b !in r.allTypesByName.Values ==> Stopped(r).buckets[b] == r.buckets[b]
    ensures Stopped(r).allServices == r.allServices && Stopped(r).connections == r.connections
  {
    var ids := IdsOf(r.allTypesByName, r.allTypesByName.Keys);
    assert ids == r.allTypesByName.Values;
    forall n | n in r.allTypesByName
      ensures Current(Stopped(r), n) == Current(r, n).(typeServices := [], servicesByKey := map[])
    {
      var t := Current(r, n);
      assert r.allTypesByName[n] in ids;
      assert BucketValid(t, r.allServices, r.connections);
      OrderedDistinct(t.typeServices);
      Z.RemoveAllEmpties(t, r.allServices);
    }
  }

  lemma StoppedKeeps(r: Tables)
    requires TablesValid(r)
    ensures TablesValid(Stopped(r))
  {
    var r' := Stopped(r);
    var ids := IdsOf(r.allTypesByName, r.allTypesByName.Keys);
    forall b | b in r.buckets
      ensures r'.buckets[b].subscribedClients == r.buckets[b].subscribedClients
      ensures r'.buckets[b].typeName == r.buckets[b].typeName
      ensures forall x :: x in r'.buckets[b].typeServices ==> x in r.buckets[b].typeServices
      ensures b < r'.nextTypeId && BucketValid(r'.buckets[b], r'.allServices, r'.connections)
    {
      var t := r.buckets[b];
      assert BucketValid(t, r.allServices, r.connections);
      if b in ids {
        OrderedDistinct(t.typeServices);
        Z.RemoveAllEmpties(t, r.allServices);
      }
    }
    SameSubscriptions(r, r');
    SameNames(r, r');
  }

  // ---- Properties of the registry ----

  /**
   * A type-added message for a name that already has a bucket replaces it
   * by an empty one: the entries and subscribers of the old bucket are no
   * longer reachable by the name, while the connections still list it.
   */
  lemma TypeAddedReplaces(r: Tables, n: string)
    requires TablesValid(r) && n in r.allTypesByName
    ensures var r' := AddedType(r, n);
            && Filed(r'.allTypesByName, r'.buckets)
            && Current(r', n) == NewBucket(n)
            && r'.allTypesByName[n] != r.allTypesByName[n]
            && r'.buckets[r.allTypesByName[n]] == Current(r, n)
            && r'.connections == r.connections && r'.allServices == r.allServices
  {
    AddedTypeKeeps(r, n);
    assert r.allTypesByName[n] in r.buckets;
  }

  /**
   * After the type of `e` is added again, a service-added message for it
   * reaches only the all-types subscribers: the connections that had
   * subscribed to the type are not told.
   */
  lemma ReaddedTypeNotifiesAllTypesOnly(r: Tables, e: ServiceEvent)
    requires TablesValid(r)
    ensures var r' := AddedType(r, e.typeName);
            && Filed(r'.allTypesByName, r'.buckets)
            && MessageCalls(r', ServiceAdded(e)) == Deliveries(TargetsOf(r.connections, r.subscribeAllClients), Updated, e.key)
  {
    AddedTypeKeeps(r, e.typeName);
  }

  /**
   * A connection that listed the replaced bucket and subscribes to the
   * type again lists both buckets: the old one and the new one.
   */
  lemma ResubscribeListsBoth(r: Tables, c: nat, n: string)
    requires TablesValid(r) && c in r.connections && n in r.allTypesByName
    requires r.allTypesByName[n] in r.connections[c].connectionTypes
    ensures var r' := AddedType(r, n);
            && Filed(r'.allTypesByName, r'.buckets)
            && var r2 := SubscribedType(r', c, n);
               && r2.connections[c].connectionTypes == r.connections[c].connectionTypes + [r.nextTypeId]
               && r.allTypesByName[n] in r2.connections[c].connectionTypes
               && Current(r2, n).subscribedClients == [c]
  {
    var r' := AddedType(r, n);
    AddedTypeKeeps(r, n);
    assert ConnectionValid(c, r.connections[c], r.buckets, r.subscribeAllClients, r.connectionSerialCounter);
    assert r.nextTypeId !in r.buckets;
    assert r.nextTypeId !in r.connections[c].connectionTypes;
  }

  lemma TargetsOfDistinct(connections: map<nat, ConnectionState>, cs: seq<nat>)
    requires Distinct(cs)
    ensures SerialsDistinct(TargetsOf(connections, cs))
    ensures forall c :: Target(c, true) in TargetsOf(connections, cs) <==> c in cs && c in connections && connections[c].hasCallbacks
  {
    var ts := TargetsOf(connections, cs);
    forall c ensures Target(c, true) in ts <==> c in cs && c in connections && connections[c].hasCallbacks {
      if c in cs {
        var i :| 0 <= i < |cs| && cs[i] == c;
        assert ts[i] == TargetOf(connections, c);
      }
    }
  }

  /**
   * A change in the current bucket of `n` reaches a connection once if it
   * lists that very bucket, and once more if it is subscribed to all types.
   */
  lemma FanOutPerSubscription(r: Tables, n: string, c: nat, kind: Kind, key: string)
    requires TablesValid(r) && n in r.allTypesByName && c in r.connections
    ensures var st := r.connections[c];
            multiset(FanOut(kind, key, TargetsOf(r.connections, Current(r, n).subscribedClients),
                            TargetsOf(r.connections, r.subscribeAllClients)))[Call(c, kind, key)]
            == (if st.hasCallbacks && r.allTypesByName[n] in st.connectionTypes then 1 else 0)
               + (if st.hasCallbacks && st.connectionAllTypes then 1 else 0)
  {
    var t := Current(r, n);
    assert BucketValid(t, r.allServices, r.connections);
    assert ConnectionValid(c, r.connections[c], r.buckets, r.subscribeAllClients, r.connectionSerialCounter);
    TargetsOfDistinct(r.connections, t.subscribedClients);
    TargetsOfDistinct(r.connections, r.subscribeAllClients);
    FanOutCount(kind, key, TargetsOf(r.connections, t.subscribedClients), TargetsOf(r.connections, r.subscribeAllClients), c);
  }

  lemma AllTypeSubscriptionsCount(r: Tables)
    requires TablesValid(r)
    ensures r.allTypeSubscriptions == |set c: nat | c in r.connections && r.connections[c].connectionAllTypes|
  {
    var flagged := set c: nat | c in r.connections && r.connections[c].connectionAllTypes;
    forall c ensures c in flagged <==> c in r.subscribeAllClients {
      if c in r.connections {
        assert ConnectionValid(c, r.connections[c], r.buckets, r.subscribeAllClients, r.connectionSerialCounter);
      }
    }
    assert flagged == set c: nat | c in r.subscribeAllClients;
    DistinctCard(r.subscribeAllClients);
  }

  /** finalize as written leaves a connection that listed two or more buckets subscribed to the second. */
  lemma FinalizeKeepsSecondType(r: Tables, c: nat)
    requires TablesValid(r) && c in r.connections && |r.connections[c].connectionTypes| >= 2
    ensures var b := r.connections[c].connectionTypes[1];
            var r' := Finalized(r, c);
            && b in r'.connections[c].connectionTypes
            && b in r'.buckets && c in r'.buckets[b].subscribedClients
  {
    var st := r.connections[c];
    var b := st.connectionTypes[1];
    assert EnumerationSurvivors(st.connectionTypes)[0] == b;
    assert b !in Dropped(st.connectionTypes, EnumerationSurvivors(st.connectionTypes));
    assert ConnectionValid(c, st, r.buckets, r.subscribeAllClients, r.connectionSerialCounter);
  }

  /** finalize as intended leaves the connection in no bucket, current or replaced, and not subscribed to all types. */
  lemma DetachedLeavesNoSubscription(r: Tables, c: nat)
    requires TablesValid(r) && c in r.connections
    ensures var r' := Detached(r, c);
            && r'.connections[c].connectionTypes == [] && !r'.connections[c].connectionAllTypes
            && c !in r'.subscribeAllClients
            && forall b :: b in r'.buckets ==> c !in r'.buckets[b].subscribedClients
  {
    var st := r.connections[c];
    assert ConnectionValid(c, st, r.buckets, r.subscribeAllClients, r.connectionSerialCounter);
    var r' := Detached(r, c);
    forall b | b in r'.buckets ensures c !in r'.buckets[b].subscribedClients {
      assert BucketValid(r.buckets[b], r.allServices, r.connections);
      RemoveFirstDistinct(r.buckets[b].subscribedClients, c);
    }
    RemoveFirstDistinct(r.subscribeAllClients, c);
  }
}
