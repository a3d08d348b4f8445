/**
 * The zeroconf service of the library: a registry of discovered services,
 * bucketed by service type, and a broker that forwards every change to the
 * client connections subscribed to that type or to all types.
 *
 * The registry lives in one `Service` object. A bucket (`SrvType`) is a
 * value in the type table, and a client connection is known by its serial
 * number, its own fields kept in the table `connections`. In this version
 * a bucket, once created, is never replaced, so a connection's
 * `connectionTypes` records bucket names.
 *
 * Each operation that changes the registry is given twice: as a function
 * from the old `Tables` to the new one, and as a method of `Service` whose
 * postcondition is that function. The lemmas at the end of the module show
 * that every such function keeps `TablesValid`.
 *
 * The JmDNS instance is reduced to the flag `discoveryRunning` (mDNS !=
 * null), the MulticastLock to its hold count, and every serviceUpdated /
 * serviceRemoved callback to an entry of the `CallLog`.
 */
module ZeroConfService {
  import opened JavaTypes
  import opened Vectors
  import opened Broker
  import opened Discovery

  /** The fields of a Connection stub: callbacks != null is `hasCallbacks`. */
  datatype ConnectionState = ConnectionState(connectionAllTypes: bool, connectionTypes: seq<string>, hasCallbacks: bool)

  /** A service-type bucket (`SrvType`). */
  datatype SrvType = SrvType(typeName: string, subscribedClients: seq<nat>, typeServices: seq<Srv>, servicesByKey: map<string, Srv>)

  /** Every indexed entry is in the bucket's list, under its own key. */
  ghost predicate BucketIndexed(t: SrvType) {
    forall k :: k in t.servicesByKey ==> t.servicesByKey[k] in t.typeServices && t.servicesByKey[k].key == k
  }

  /** getSrvByKey: null (None) when the key is not indexed. */
  function GetSrvByKey(t: SrvType, key: string): (r: Option<Srv>)
    ensures r.Some? <==> key in t.servicesByKey
    ensures r.Some? ==> r.value == t.servicesByKey[key]
    ensures r.Some? && BucketIndexed(t) ==> r.value in t.typeServices && r.value.key == key
  {
    if key in t.servicesByKey then Some(t.servicesByKey[key]) else None
  }

  /** A connection as the notify loops see it. */
  function TargetOf(connections: map<nat, ConnectionState>, c: nat): Target {
    Target(c, c in connections && connections[c].hasCallbacks)
  }

  /** A subscriber list as the notify loops see it. */
  function TargetsOf(connections: map<nat, ConnectionState>, cs: seq<nat>): (r: seq<Target>)
    ensures |r| == |cs| && forall i :: 0 <= i < |cs| ==> r[i] == TargetOf(connections, cs[i])
  {
    seq(|cs|, i requires 0 <= i < |cs| => TargetOf(connections, cs[i]))
  }

  /** addSrv on a bucket's own tables. */
  function WithSrv(t: SrvType, srv: Srv): (r: SrvType)
    ensures r.typeName == t.typeName && r.subscribedClients == t.subscribedClients
    ensures r.typeServices == t.typeServices + [srv]
    ensures srv.key in r.servicesByKey && r.servicesByKey[srv.key] == srv
    ensures forall k :: k != srv.key ==> (k in r.servicesByKey <==> k in t.servicesByKey)
  {
    t.(typeServices := t.typeServices + [srv], servicesByKey := t.servicesByKey[srv.key := srv])
  }

  /**
   * removeSrv on a bucket's own tables: the first occurrence leaves the list
   * and the key leaves the index, whichever entry the key named.
   */
  function WithoutSrv(t: SrvType, srv: Srv): (r: SrvType)
    ensures r.typeName == t.typeName && r.subscribedClients == t.subscribedClients
    ensures r.typeServices == RemoveFirst(t.typeServices, srv)
    ensures srv.key !in r.servicesByKey && forall k :: k in r.servicesByKey <==> k in t.servicesByKey && k != srv.key
  {
    t.(typeServices := RemoveFirst(t.typeServices, srv), servicesByKey := t.servicesByKey - {srv.key})
  }

  /** removeSrv on a bucket for every entry of `srvs`, first to last. */
  function RemoveEach(t: SrvType, srvs: seq<Srv>): (r: SrvType)
    ensures r.typeName == t.typeName && r.subscribedClients == t.subscribedClients
  {
    if srvs == [] then t else WithoutSrv(RemoveEach(t, srvs[..|srvs| - 1]), srvs[|srvs| - 1])
  }

  /** The bucket a type table holds for `n`; a missing one reads as a new, empty bucket. */
  function BucketIn(allTypesByName: map<string, SrvType>, n: string): SrvType {
    if n in allTypesByName then allTypesByName[n] else SrvType(n, [], [], map[])
  }

  /** Every bucket is filed under its own type name. */
  ghost predicate Named(allTypesByName: map<string, SrvType>) {
    forall n :: n in allTypesByName ==> allTypesByName[n].typeName == n
  }

  /** Each bucket of `order` as the notify loops see its subscribers. */
  function BucketTargets(allTypesByName: map<string, SrvType>, connections: map<nat, ConnectionState>, order: seq<string>): (r: seq<seq<Target>>)
    ensures |r| == |order|
    ensures forall i :: 0 <= i < |order| ==> r[i] == TargetsOf(connections, BucketIn(allTypesByName, order[i]).subscribedClients)
  {
    seq(|order|, i requires 0 <= i < |order| => TargetsOf(connections, BucketIn(allTypesByName, order[i]).subscribedClients))
  }

  /** The type table after `c` has left the buckets named in `ns`. */
  function UnsubscribedFrom(allTypesByName: map<string, SrvType>, ns: set<string>, c: nat): (r: map<string, SrvType>)
    ensures r.Keys == allTypesByName.Keys
  {
    map n | n in allTypesByName ::
      if n in ns then allTypesByName[n].(subscribedClients := RemoveFirst(allTypesByName[n].subscribedClients, c))
      else allTypesByName[n]
  }

  /** What the service keeps consistent about the bucket of type `n`. */
  ghost predicate BucketValid(n: string, t: SrvType, allServices: seq<Srv>, connections: map<nat, ConnectionState>) {
    && t.typeName == n
    && Distinct(t.subscribedClients)
    && (forall c :: c in t.subscribedClients ==> c in connections)
    // typeServices is in arrival order, and each entry is also in allServices
    && OldestFirst(t.typeServices)
    && (forall s :: s in t.typeServices ==> s in allServices && s.typeName == n)
    && BucketIndexed(t)
  }

  /** What the service keeps consistent about connection `c`. */
  ghost predicate ConnectionValid(c: nat, st: ConnectionState, allTypesByName: map<string, SrvType>,
                                  subscribeAllClients: seq<nat>, connectionSerialCounter: nat) {
    && c < connectionSerialCounter
    && Distinct(st.connectionTypes)
    && (forall n :: n in st.connectionTypes ==> n in allTypesByName)
    && (st.connectionAllTypes <==> c in subscribeAllClients)
  }

  /** The registry a Service keeps: its type table, its entry list, its subscribers and connections. */
  datatype Tables = Tables(allTypesByName: map<string, SrvType>, allServices: seq<Srv>, subscribeAllClients: seq<nat>,
                           allTypeSubscriptions: int, connections: map<nat, ConnectionState>,
                           connectionSerialCounter: nat, nextSrvId: nat)

  /** Every bucket is consistent. */
  ghost predicate BucketsValid(r: Tables) {
    forall n :: n in r.allTypesByName ==> BucketValid(n, r.allTypesByName[n], r.allServices, r.connections)
  }

  /** Every connection is consistent. */
  ghost predicate ConnectionsValid(r: Tables) {
    forall c :: c in r.connections ==>
      ConnectionValid(c, r.connections[c], r.allTypesByName, r.subscribeAllClients, r.connectionSerialCounter)
  }

  /** A per-type subscription is recorded on both sides. */
  ghost predicate SubscriptionsRecorded(r: Tables) {
    forall c, n :: c in r.connections && n in r.allTypesByName ==>
      (n in r.connections[c].connectionTypes <==> c in r.allTypesByName[n].subscribedClients)
  }

  /** The all-types subscribers are distinct connections, and allTypeSubscriptions counts them. */
  ghost predicate AllTypesRecorded(r: Tables) {
    && Distinct(r.subscribeAllClients)
    && (forall c :: c in r.subscribeAllClients ==> c in r.connections)
    && r.allTypeSubscriptions == |r.subscribeAllClients|
  }

  /** allServices is newest first, and every entry is older than the next one. */
  ghost predicate ServicesOrdered(r: Tables) {
    NewestFirst(r.allServices) && (forall s :: s in r.allServices ==> s.id < r.nextSrvId)
  }

  /** The tables agree with each other. */
  ghost predicate TablesValid(r: Tables) {
    BucketsValid(r) && ConnectionsValid(r) && SubscriptionsRecorded(r) && AllTypesRecorded(r) && ServicesOrdered(r)
  }

  /** The tables of a service that has just been created. */
  function Empty(): (r: Tables)
    ensures TablesValid(r)
  {
    Tables(map[], [], [], 0, map[], 0, 0)
  }

  // ---- The registry's state changes, one function per entry point ----

  /** onBind: a new connection with the next serial number, subscribed to nothing. */
  function Bind(r: Tables): Tables {
    r.(connections := r.connections[r.connectionSerialCounter := ConnectionState(false, [], false)],
       connectionSerialCounter := r.connectionSerialCounter + 1)
  }

  /** registerCallbacks: the connection's callback object, which may be null. */
  function WithCallbacks(r: Tables, c: nat, present: bool): Tables
    requires c in r.connections
  {
    r.(connections := r.connections[c := r.connections[c].(hasCallbacks := present)])
  }

  /** ensureType, with the bucket put back under its own name. */
  function EnsuredType(r: Tables, n: string): Tables {
    r.(allTypesByName := r.allTypesByName[n := BucketIn(r.allTypesByName, n)])
  }

  /** The Srv object a service-added message creates. */
  function NewSrv(r: Tables, e: ServiceEvent): Srv {
    Srv(r.nextSrvId, e.typeName, e.name, e.key)
  }

  /** A service-added message: the new entry joins its bucket and the front of allServices. */
  function AddedService(r: Tables, e: ServiceEvent): Tables {
    var s := NewSrv(r, e);
    r.(allTypesByName := r.allTypesByName[e.typeName := WithSrv(BucketIn(r.allTypesByName, e.typeName), s)],
       allServices := [s] + r.allServices,
       nextSrvId := r.nextSrvId + 1)
  }

  /** A service-removed message whose key is not indexed throws after ensureType. */
  predicate RemovalThrows(r: Tables, e: ServiceEvent) {
    e.key !in BucketIn(r.allTypesByName, e.typeName).servicesByKey
  }

  /** A service-removed message: the indexed entry leaves its bucket and allServices. */
  function RemovedService(r: Tables, e: ServiceEvent): Tables {
    var t := BucketIn(r.allTypesByName, e.typeName);
    if e.key !in t.servicesByKey then EnsuredType(r, e.typeName)
    else
      var s := t.servicesByKey[e.key];
      r.(allTypesByName := r.allTypesByName[e.typeName := WithoutSrv(t, s)],
         allServices := RemoveFirst(r.allServices, s))
  }

  /** The tables after one message of the handler. */
  function AfterMessage(r: Tables, m: Message): Tables {
    match m
    case TypeAdded(n) => EnsuredType(r, n)
    case ServiceAdded(e) => AddedService(r, e)
    case ServiceRemoved(e) => RemovedService(r, e)
    case ServiceResolved(_) => r
  }

  /** The callbacks one message of the handler makes. */
  function MessageCalls(r: Tables, m: Message): seq<Call> {
    match m
    case TypeAdded(_) => []
    case ServiceAdded(e) =>
      FanOut(Updated, e.key, TargetsOf(r.connections, BucketIn(r.allTypesByName, e.typeName).subscribedClients),
             TargetsOf(r.connections, r.subscribeAllClients))
    case ServiceRemoved(e) =>
      if RemovalThrows(r, e) then []
      else FanOut(Removed, BucketIn(r.allTypesByName, e.typeName).servicesByKey[e.key].key, TargetsOf(r.connections, BucketIn(r.allTypesByName, e.typeName).subscribedClients),
                  TargetsOf(r.connections, r.subscribeAllClients))
    case ServiceResolved(_) => []
  }

  /** subscribeAll: the first call flags and counts the connection and appends it to the all-types subscribers. */
  function SubscribedAll(r: Tables, c: nat): Tables
    requires c in r.connections
  {
    var st := r.connections[c];
    if st.connectionAllTypes then r
    else r.(connections := r.connections[c := st.(connectionAllTypes := true)],
            allTypeSubscriptions := r.allTypeSubscriptions + 1,
            subscribeAllClients := r.subscribeAllClients + [c])
  }

  /** unsubscribeAll: undoes subscribeAll; for a connection that is not flagged it changes nothing. */
  function UnsubscribedAll(r: Tables, c: nat): Tables
    requires c in r.connections
  {
    var st := r.connections[c];
    if !st.connectionAllTypes then r
    else r.(connections := r.connections[c := st.(connectionAllTypes := false)],
            allTypeSubscriptions := r.allTypeSubscriptions - 1,
            subscribeAllClients := RemoveFirst(r.subscribeAllClients, c))
  }

  /**
   * subscribeType: ensureType; then, unless the connection already lists the
   * type, it lists it and subscribes to the bucket (which does nothing if it
   * is already a subscriber there).
   */
  function SubscribedType(r: Tables, c: nat, n: string): Tables
    requires c in r.connections
  {
    var r1 := EnsuredType(r, n);
    var st := r.connections[c];
    var t := BucketIn(r.allTypesByName, n);
    if n in st.connectionTypes then r1
    else r1.(connections := r.connections[c := st.(connectionTypes := st.connectionTypes + [n])],
             allTypesByName := r1.allTypesByName[n := if c in t.subscribedClients then t
                                                       else t.(subscribedClients := t.subscribedClients + [c])])
  }

  /** subscribeType's callbacks: the bucket's entries replayed, oldest first, to a new subscriber. */
  function SubscribeTypeCalls(r: Tables, c: nat, n: string): seq<Call>
    requires c in r.connections
  {
    var t := BucketIn(r.allTypesByName, n);
    if n in r.connections[c].connectionTypes || c in t.subscribedClients then []
    else Replay(TargetOf(r.connections, c), t.typeServices)
  }

  /** unsubscribeType: ensureType; then, if the connection lists the type, it leaves the list and the bucket. */
  function UnsubscribedType(r: Tables, c: nat, n: string): Tables
    requires c in r.connections
  {
    var r1 := EnsuredType(r, n);
    var st := r.connections[c];
    var t := BucketIn(r.allTypesByName, n);
    if n !in st.connectionTypes then r1
    else r1.(connections := r.connections[c := st.(connectionTypes := RemoveFirst(st.connectionTypes, n))],
             allTypesByName := r1.allTypesByName[n := t.(subscribedClients := RemoveFirst(t.subscribedClients, c))])
  }

  /** Connection `c` keeping only the types `kept` of its list and leaving the buckets of the others. */
  function KeptTypes(r: Tables, c: nat, kept: seq<string>): Tables
    requires c in r.connections
  {
    var st := r.connections[c];
    r.(allTypesByName := UnsubscribedFrom(r.allTypesByName, Dropped(st.connectionTypes, kept), c),
       connections := r.connections[c := st.(connectionTypes := kept)])
  }

  /**
   * finalize as written: the enumeration over connectionTypes, which removes
   * as it goes, visits and drops only every second type; then unsubscribeAll.
   */
  function Finalized(r: Tables, c: nat): Tables
    requires c in r.connections
  {
    UnsubscribedAll(KeptTypes(r, c, EnumerationSurvivors(r.connections[c].connectionTypes)), c)
  }

  /** finalize as intended: every listed type is dropped; then unsubscribeAll. */
  function Detached(r: Tables, c: nat): Tables
    requires c in r.connections
  {
    UnsubscribedAll(KeptTypes(r, c, []), c)
  }

  /** stopDiscovery: removeAllSrv on every bucket; allServices itself is left as it is. */
  function Stopped(r: Tables): Tables {
    r.(allTypesByName := StoppedBuckets(r.allTypesByName, r.allTypesByName.Keys, r.allServices))
  }

  /** The type listener installed in JmDNS (`SrvTypeListener`). */
  class SrvTypeListener {
    /** Every type seen during the listener's lifetime. */
    var seenTypes: set<string>
    /** The type-added messages it has posted, in order. */
    var posted: seq<string>

    constructor ()
      ensures seenTypes == {} && posted == []
    {
      seenTypes := {};
      posted := [];
    }

    /** Each type is posted at most once, and then it counts as seen. */
    ghost predicate Valid()
      reads this
    {
      Distinct(posted) && (forall n :: n in seenTypes <==> n in posted)
    }

    /**
     * serviceTypeAdded: while discovery runs (`running`: mDNS != null), a
     * type never seen before is posted to the handler (and gets a service
     * listener); anything else is ignored.
     */
    method ServiceTypeAdded(typeName: string, running: bool)
      requires Valid()
      modifies this
      ensures Valid()
      ensures running && typeName !in old(seenTypes) ==>
                posted == old(posted) + [typeName] && seenTypes == old(seenTypes) + {typeName}
      ensures !running || typeName in old(seenTypes) ==>
                posted == old(posted) && seenTypes == old(seenTypes)
    {
      if running && typeName !in seenTypes {
        posted := posted + [typeName];
        seenTypes := seenTypes + {typeName};
      }
    }
  }

  /** The outcome of one handled message or one subscribeAll. */
  datatype Outcome =
    | Handled
      /**
       * service-removed for a key its bucket does not index: removeSrv(null)
       * throws; or subscribeAll replays to a connection without callbacks.
       */
    | NullPointer

  class Service {
    var allTypesByName: map<string, SrvType>
    var allServices: seq<Srv>
    var subscribeAllClients: seq<nat>
    var allTypeSubscriptions: int
    /** The bound connections, by serial number. */
    var connections: map<nat, ConnectionState>
    var connectionSerialCounter: nat
    /** Identity for the next Srv object. */
    var nextSrvId: nat
    /** mDNS != null */
    var discoveryRunning: bool
    /** Acquisitions of the current multicast lock not yet released. */
    var lockHolds: int
    /** The address the running JmDNS instance was created on. */
    var address: seq<octet>
    /** The clients' callbacks. */
    const log: CallLog
    /** The startDiscovery and stopDiscovery calls made so far, in order. */
    ghost var discoveryCalls: seq<DiscoveryCall>

    /** The registry's fields, as one value. */
    ghost function Snapshot(): Tables
      reads this`allTypesByName, this`allServices, this`subscribeAllClients, this`allTypeSubscriptions,
            this`connections, this`connectionSerialCounter, this`nextSrvId
    {
      Tables(allTypesByName, allServices, subscribeAllClients, allTypeSubscriptions,
             connections, connectionSerialCounter, nextSrvId)
    }

    /** The multicast lock is held exactly while discovery runs. */
    ghost predicate LockValid()
      reads this`discoveryRunning, this`lockHolds
    {
      lockHolds == if discoveryRunning then 1 else 0
    }

    ghost predicate Valid()
      reads this, log
    {
      TablesValid(Snapshot()) && log.Valid() && LockValid()
    }

    constructor ()
      ensures Valid() && fresh(log) && log.calls == []
      ensures Snapshot() == Empty() && !discoveryRunning && lockHolds == 0 && discoveryCalls == []
    {
      discoveryCalls := [];
      allTypesByName := map[];
      allServices := [];
      subscribeAllClients := [];
      allTypeSubscriptions := 0;
      connections := map[];
      connectionSerialCounter := 0;
      nextSrvId := 0;
      discoveryRunning := false;
      lockHolds := 0;
      address := [];
      log := new CallLog();
    }

    /** onBind: a Connection stub takes the next serial number. */
    method OnBind() returns (c: nat)
      modifies this`connections, this`connectionSerialCounter
      ensures c == old(connectionSerialCounter)
      ensures Snapshot() == Bind(old(Snapshot()))
    {
      c := connectionSerialCounter;
      connections := connections[c := ConnectionState(false, [], false)];
      connectionSerialCounter := connectionSerialCounter + 1;
    }

    method RegisterCallbacks(c: nat, present: bool)
      requires c in connections
      modifies this`connections
      ensures Snapshot() == WithCallbacks(old(Snapshot()), c, present)
    {
      connections := connections[c := connections[c].(hasCallbacks := present)];
    }

    /**
     * ensureType: the bucket of `typeName`, created empty when the type is
     * new; an existing bucket is returned and kept as it is.
     */
    method EnsureType(typeName: string) returns (t: SrvType)
      modifies this`allTypesByName
      ensures t == BucketIn(old(allTypesByName), typeName)
      ensures allTypesByName == old(allTypesByName)[typeName := t]
    {
      if typeName !in allTypesByName {
        t := SrvType(typeName, [], [], map[]);
        allTypesByName := allTypesByName[typeName := t];
        return;
      }
      t := allTypesByName[typeName];
    }

    /** updateSrv: serviceUpdated to the type's subscribers, then to the all-types subscribers. */
    method UpdateSrv(typeName: string, srv: Srv)
      requires log.Valid() && typeName in allTypesByName
      modifies log
      ensures log.Valid()
      ensures log.calls == old(log.calls) + FanOut(Updated, srv.key, TargetsOf(connections, allTypesByName[typeName].subscribedClients),
                                                   TargetsOf(connections, subscribeAllClients))
    {
      log.FanOutEach(Updated, srv.key, TargetsOf(connections, allTypesByName[typeName].subscribedClients),
                     TargetsOf(connections, subscribeAllClients));
    }

    /** addSrv: the entry is appended to its bucket, indexed by its key, and announced. */
    method AddSrv(typeName: string, srv: Srv)
      requires log.Valid() && typeName in allTypesByName
      modifies this`allTypesByName, log
      ensures log.Valid()
      ensures allTypesByName == old(allTypesByName)[typeName := WithSrv(old(allTypesByName[typeName]), srv)]
      ensures log.calls == old(log.calls) + FanOut(Updated, srv.key, TargetsOf(connections, allTypesByName[typeName].subscribedClients),
                                                   TargetsOf(connections, subscribeAllClients))
    {
      var t := allTypesByName[typeName];
      allTypesByName := allTypesByName[typeName := WithSrv(t, srv)];
      UpdateSrv(typeName, srv);
    }

    /**
     * removeSrv: the removal is announced first; then the entry leaves its
     * bucket's list and its key leaves the index.
     */
    method RemoveSrv(typeName: string, srv: Srv)
      requires log.Valid() && typeName in allTypesByName
      modifies this`allTypesByName, log
      ensures log.Valid()
      ensures allTypesByName == old(allTypesByName)[typeName := WithoutSrv(old(allTypesByName[typeName]), srv)]
      ensures log.calls == old(log.calls) + FanOut(Removed, srv.key, TargetsOf(connections, allTypesByName[typeName].subscribedClients),
                                                   TargetsOf(connections, subscribeAllClients))
    {
      var t := allTypesByName[typeName];
      log.FanOutEach(Removed, srv.key, TargetsOf(connections, t.subscribedClients), TargetsOf(connections, subscribeAllClients));
      allTypesByName := allTypesByName[typeName := WithoutSrv(t, srv)];
    }

    /**
     * removeAllSrv: removeSrv for every entry of the service-global
     * allServices list (not only this bucket's), so the entries of every
     * other type are announced as removed to this type's subscribers too.
     */
    method RemoveAllSrv(typeName: string)
      requires log.Valid() && typeName in allTypesByName
      modifies this`allTypesByName, log
      ensures log.Valid()
      ensures allTypesByName == old(allTypesByName)[typeName := RemoveEach(old(allTypesByName[typeName]), allServices)]
      ensures log.calls == old(log.calls) + RemoveAllCalls(TargetsOf(connections, allTypesByName[typeName].subscribedClients),
                                                           TargetsOf(connections, subscribeAllClients), allServices)
    {
      var t := allTypesByName[typeName];
      log.RemoveAllEach(TargetsOf(connections, t.subscribedClients), TargetsOf(connections, subscribeAllClients), allServices);
      allTypesByName := allTypesByName[typeName := RemoveEach(t, allServices)];
    }

    /**
     * subscribe: a new subscriber is appended to the bucket and sent every
     * entry of it, oldest first; subscribing again does nothing.
     */
    method Subscribe(typeName: string, client: nat)
      requires log.Valid() && typeName in allTypesByName
      modifies this`allTypesByName, log
      ensures log.Valid()
      ensures var t := old(allTypesByName[typeName]);
              if client in t.subscribedClients then
                allTypesByName == old(allTypesByName) && log.calls == old(log.calls)
              else
                && allTypesByName == old(allTypesByName)[typeName := t.(subscribedClients := t.subscribedClients + [client])]
                && log.calls == old(log.calls) + Replay(TargetOf(connections, client), t.typeServices)
    {
      var t := allTypesByName[typeName];
      if client !in t.subscribedClients {
        allTypesByName := allTypesByName[typeName := t.(subscribedClients := t.subscribedClients + [client])];
        var target := TargetOf(connections, client);
        var srvs := t.typeServices;
        var i := 0;
        while i < |srvs|
          invariant 0 <= i <= |srvs| && log.Valid()
          invariant log.calls == old(log.calls) + Replay(target, srvs[..i])
          modifies log
        {
          ReplayPrefix(target, srvs, i);
          log.Notify(target, Updated, srvs[i].key);
          i := i + 1;
        }
        assert srvs[..i] == srvs;
      }
    }

    /** unsubscribe: the subscriber leaves the bucket; unsubscribing a non-subscriber does nothing. */
    method Unsubscribe(typeName: string, client: nat)
      requires typeName in allTypesByName
      modifies this`allTypesByName
      ensures var t := old(allTypesByName[typeName]);
              allTypesByName == old(allTypesByName)[typeName := t.(subscribedClients := RemoveFirst(t.subscribedClients, client))]
    {
      var t := allTypesByName[typeName];
      if client in t.subscribedClients {
        allTypesByName := allTypesByName[typeName := t.(subscribedClients := RemoveFirst(t.subscribedClients, client))];
      }
    }

    /** A type-added message. */
    method OnTypeAdded(typeName: string)
      requires Named(allTypesByName)
      modifies this`allTypesByName
      ensures Snapshot() == EnsuredType(old(Snapshot()), typeName)
    {
      var t := EnsureType(typeName);
      assert t.typeName == typeName;
      allTypesByName := allTypesByName[t.typeName := t];
    }

    /**
     * A service-added message: a new entry (a new object, so the next id)
     * joins its type's bucket, which is created when missing, is announced,
     * and is inserted at the front of allServices.
     */
    method OnServiceAdded(e: ServiceEvent)
      requires log.Valid() && Named(allTypesByName)
      modifies this`allTypesByName, this`allServices, this`nextSrvId, log
      ensures log.Valid()
      ensures Snapshot() == AddedService(old(Snapshot()), e)
      ensures log.calls == old(log.calls) + MessageCalls(old(Snapshot()), ServiceAdded(e))
    {
      var t := EnsureType(e.typeName);
      assert t.typeName == e.typeName;
      var s := Srv(nextSrvId, e.typeName, e.name, e.key);
      nextSrvId := nextSrvId + 1;
      AddSrv(t.typeName, s);
      allServices := [s] + allServices;
    }

    /**
     * A service-removed message: ensureType, then the entry its key
     * indexes leaves the bucket and allServices after the removal is
     * announced. When the key is not indexed, removeSrv(null) throws before
     * anything but the ensureType has happened.
     */
    method OnServiceRemoved(e: ServiceEvent) returns (o: Outcome)
      requires log.Valid() && Named(allTypesByName)
      modifies this`allTypesByName, this`allServices, log
      ensures log.Valid()
      ensures o == NullPointer <==> RemovalThrows(old(Snapshot()), e)
      ensures Snapshot() == RemovedService(old(Snapshot()), e)
      ensures log.calls == old(log.calls) + MessageCalls(old(Snapshot()), ServiceRemoved(e))
    {
      var t := EnsureType(e.typeName);
      assert t.typeName == e.typeName;
      var found := GetSrvByKey(t, e.key);
      if found.None? {
        return NullPointer;
      }
      var s := found.value;
      RemoveSrv(t.typeName, s);
      allServices := RemoveFirst(allServices, s);
      o := Handled;
    }

    /** The handler of the messages the JmDNS listeners post; a resolved message changes nothing. */
    method HandleMessage(m: Message) returns (o: Outcome)
      requires log.Valid() && Named(allTypesByName)
      modifies this`allTypesByName, this`allServices, this`nextSrvId, log
      ensures log.Valid()
      ensures o == NullPointer <==> m.ServiceRemoved? && RemovalThrows(old(Snapshot()), m.event)
      ensures Snapshot() == AfterMessage(old(Snapshot()), m)
      ensures log.calls == old(log.calls) + MessageCalls(old(Snapshot()), m)
    {
      match m
      case TypeAdded(typeName) =>
        OnTypeAdded(typeName);
        o := Handled;
      case ServiceAdded(e) =>
        OnServiceAdded(e);
        o := Handled;
      case ServiceRemoved(e) =>
        o := OnServiceRemoved(e);
      case ServiceResolved(e) =>
        o := Handled;
    }

    /**
     * prenotifySubscribeAll: serviceUpdated for every entry of allServices,
     * newest first. It does not test for null callbacks, so a connection
     * without callbacks can only get here when there is nothing to send.
     */
    method PrenotifySubscribeAll(c: nat) returns (o: Outcome)
      requires log.Valid() && c in connections
      modifies log
      ensures log.Valid()
      ensures o == NullPointer <==> !connections[c].hasCallbacks && allServices != []
      ensures log.calls == old(log.calls) + if o == NullPointer then [] else Updates(c, allServices)
    {
      if !connections[c].hasCallbacks && allServices != [] {
        // the first serviceUpdated is called on null callbacks
        return NullPointer;
      }
      o := Handled;
      var all := allServices;
      var i := 0;
      while i < |all|
        invariant 0 <= i <= |all| && log.Valid()
        invariant log.calls == old(log.calls) + Updates(c, all[..i])
      {
        UpdatesPrefix(c, all, i);
        log.Callback(c, Updated, all[i].key);
        i := i + 1;
      }
      assert all[..i] == all;
    }

    /** subscribeAll: the first call also replays allServices to the connection. */
    method SubscribeAll(c: nat) returns (o: Outcome)
      requires log.Valid() && c in connections
      modifies this`connections, this`allTypeSubscriptions, this`subscribeAllClients, log
      ensures log.Valid()
      ensures Snapshot() == SubscribedAll(old(Snapshot()), c)
      ensures o == NullPointer <==>
                !old(connections[c].connectionAllTypes) && !old(connections[c].hasCallbacks) && allServices != []
      ensures log.calls == old(log.calls) +
                if old(connections[c].connectionAllTypes) || o == NullPointer then [] else Updates(c, allServices)
    {
      o := Handled;
      if !connections[c].connectionAllTypes {
        connections := connections[c := connections[c].(connectionAllTypes := true)];
        allTypeSubscriptions := allTypeSubscriptions + 1;
        subscribeAllClients := subscribeAllClients + [c];
        // throws after the flag, the counter and the list have changed
        o := PrenotifySubscribeAll(c);
      }
    }

    method UnsubscribeAll(c: nat)
      requires c in connections
      modifies this`connections, this`allTypeSubscriptions, this`subscribeAllClients
      ensures Snapshot() == UnsubscribedAll(old(Snapshot()), c)
    {
      if connections[c].connectionAllTypes {
        allTypeSubscriptions := allTypeSubscriptions - 1;
        connections := connections[c := connections[c].(connectionAllTypes := false)];
        subscribeAllClients := RemoveFirst(subscribeAllClients, c);
      }
    }

    method SubscribeType(c: nat, typeName: string)
      requires log.Valid() && c in connections
      modifies this`allTypesByName, this`connections, log
      ensures log.Valid()
      ensures Snapshot() == SubscribedType(old(Snapshot()), c, typeName)
      ensures log.calls == old(log.calls) + SubscribeTypeCalls(old(Snapshot()), c, typeName)
    {
      var t := EnsureType(typeName);
      var st := connections[c];
      if typeName !in st.connectionTypes {
        connections := connections[c := st.(connectionTypes := st.connectionTypes + [typeName])];
        Subscribe(typeName, c);
      }
    }

    method UnsubscribeType(c: nat, typeName: string)
      requires c in connections
      modifies this`allTypesByName, this`connections
      ensures Snapshot() == UnsubscribedType(old(Snapshot()), c, typeName)
    {
      var t := EnsureType(typeName);
      var st := connections[c];
      if typeName in st.connectionTypes {
        connections := connections[c := st.(connectionTypes := RemoveFirst(st.connectionTypes, typeName))];
        Unsubscribe(typeName, c);
      }
    }

    /**
     * finalize as written: an Enumeration over connectionTypes that removes
     * the element it has just returned, so that the next element moves under
     * the enumeration's index and is skipped. The connection's list is
     * held in `types` while the loop runs and stored back after it; nothing
     * in the loop reads another connection.
     */
    method Finalize(c: nat)
      requires c in connections
      requires Distinct(connections[c].connectionTypes)
      requires forall n :: n in connections[c].connectionTypes ==> n in allTypesByName
      modifies this`allTypesByName, this`connections, this`allTypeSubscriptions, this`subscribeAllClients
      ensures Snapshot() == Finalized(old(Snapshot()), c)
    {
      var st := connections[c];
      var types := EnumerateUnsubscribing(c, st.connectionTypes);
      connections := connections[c := st.(connectionTypes := types)];
      UnsubscribeAll(c);
    }

    /** finalize's loop on the connection's list `o`: what is left of the list, and the buckets it leaves. */
    method EnumerateUnsubscribing(c: nat, o: seq<string>) returns (types: seq<string>)
      requires Distinct(o) && forall n :: n in o ==> n in allTypesByName
      modifies this`allTypesByName
      ensures types == EnumerationSurvivors(o)
      ensures allTypesByName == UnsubscribedFrom(old(allTypesByName), Dropped(o, types), c)
    {
      ghost var types0 := allTypesByName;
      types := o;
      var k := 0;
      assert EnumerationCursor(o, 0) == o by {
        assert o[..0] == [] && o[0..] == o;
      }
      assert Dropped(o, o) == {};
      while k < |types|
        invariant 2 * k <= |o| + 1
        invariant types == EnumerationCursor(o, k) && Distinct(types)
        invariant allTypesByName == UnsubscribedFrom(types0, Dropped(o, types), c)
      {
        EnumerationCursorStep(o, k);
        var n := types[k];
        assert n == o[2 * k] && n in types0;
        k := k + 1;
        if n in types {
          DroppedStep(o, types, n);
          UnsubscribedFromStep(types0, Dropped(o, types), n, c);
          types := RemoveFirst(types, n);
          Unsubscribe(n, c);
        }
      }
      EnumerationCursorEnd(o, k);
    }

    /** finalize as intended: every listed type is dropped, by a loop over a copy of the list. */
    method Detach(c: nat)
      requires c in connections
      requires Distinct(connections[c].connectionTypes)
      requires forall n :: n in connections[c].connectionTypes ==> n in allTypesByName
      modifies this`allTypesByName, this`connections, this`allTypeSubscriptions, this`subscribeAllClients
      ensures Snapshot() == Detached(old(Snapshot()), c)
    {
      ghost var types0 := allTypesByName;
      var st := connections[c];
      var types := st.connectionTypes;
      var o := types;
      assert Dropped(o, o) == {};
      var i := 0;
      while i < |o|
        invariant 0 <= i <= |o| && types == o[i..]
        invariant allTypesByName == UnsubscribedFrom(types0, Dropped(o, types), c)
        modifies this`allTypesByName
      {
        var n := o[i];
        assert types == [n] + o[i + 1..];
        DroppedStep(o, types, n);
        UnsubscribedFromStep(types0, Dropped(o, types), n, c);
        types := RemoveFirst(types, n);
        Unsubscribe(n, c);
        i := i + 1;
      }
      connections := connections[c := st.(connectionTypes := types)];
      UnsubscribeAll(c);
    }

    /**
     * startDiscovery: unless discovery already runs, a new multicast lock
     * is created; then wifi must be enabled and the connection info
     * present, the lock is acquired, and JmDNS is created on the address,
     * with the lock released again when that fails.
     */
    method StartDiscovery(env: WifiEnv) returns (listener: SrvTypeListener?)
      requires LockValid()
      modifies this`discoveryRunning, this`lockHolds, this`address, this`discoveryCalls
      ensures LockValid() && discoveryCalls == old(discoveryCalls) + [StartCall(env)]
      ensures old(discoveryRunning) ==> discoveryRunning && address == old(address)
      ensures !old(discoveryRunning) ==> (discoveryRunning <==> StartSucceeds(env))
      ensures !old(discoveryRunning) && discoveryRunning ==> address == AddressBytes(env.connectionInfo.value)
      ensures !old(discoveryRunning) && !discoveryRunning ==> address == old(address)
      ensures listener != null <==> !old(discoveryRunning) && discoveryRunning
      ensures listener != null ==> fresh(listener) && listener.Valid() && listener.seenTypes == {}
    {
      discoveryCalls := discoveryCalls + [StartCall(env)];
      listener := null;
      if discoveryRunning {
        return;
      }
      // a new, reference-counted lock that nobody holds yet
      lockHolds := 0;
      if env.wifiState != WIFI_STATE_ENABLED {
        return;
      }
      if env.connectionInfo.None? {
        return;
      }
      var addressBytes := AddressBytes(env.connectionInfo.value);
      lockHolds := lockHolds + 1;
      if env.createOk {
        discoveryRunning := true;
        address := addressBytes;
        listener := new SrvTypeListener();
      } else {
        lockHolds := lockHolds - 1;
      }
    }

    /**
     * stopDiscovery: when discovery runs, mDNS is cleared, every bucket is
     * emptied by removeAllSrv in the order the type table yields them
     * (`order`), and the lock is released. allServices is not cleared.
     */
    method StopDiscovery() returns (ghost order: seq<string>)
      requires log.Valid() && LockValid()
      modifies this`allTypesByName, this`discoveryRunning, this`lockHolds, this`discoveryCalls, log
      ensures log.Valid() && LockValid() && !discoveryRunning && discoveryCalls == old(discoveryCalls) + [StopCall]
      ensures !old(discoveryRunning) ==> Snapshot() == old(Snapshot()) && log.calls == old(log.calls)
      ensures old(discoveryRunning) ==>
                && Snapshot() == Stopped(old(Snapshot()))
                && Distinct(order) && (forall n :: n in order <==> n in old(allTypesByName))
                && log.calls == old(log.calls) + StopCalls(BucketTargets(old(allTypesByName), connections, order),
                                                           TargetsOf(connections, subscribeAllClients), allServices)
    {
      order := [];
      if discoveryRunning {
        discoveryRunning := false;
        order := RemoveAllTypes();
        lockHolds := lockHolds - 1;
      }
      discoveryCalls := discoveryCalls + [StopCall];
    }

    /** stopDiscovery's loop: removeAllSrv on every bucket, in the order `order`. */
    method RemoveAllTypes() returns (ghost order: seq<string>)
      requires log.Valid()
      modifies this`allTypesByName, log
      ensures log.Valid()
      ensures allTypesByName == StoppedBuckets(old(allTypesByName), old(allTypesByName).Keys, allServices)
      ensures Distinct(order) && (forall n :: n in order <==> n in old(allTypesByName))
      ensures log.calls == old(log.calls) + StopCalls(BucketTargets(old(allTypesByName), connections, order),
                                                      TargetsOf(connections, subscribeAllClients), allServices)
    {
      order := [];
      ghost var types0 := allTypesByName;
      ghost var allTargets := TargetsOf(connections, subscribeAllClients);
      var names := allTypesByName.Keys;
      ghost var done: set<string> := {};
      while names != {}
        invariant names + done == types0.Keys && names !! done
        invariant Distinct(order) && forall n :: n in order <==> n in done
        invariant allTypesByName == StoppedBuckets(types0, done, allServices)
        invariant log.Valid()
        invariant log.calls == old(log.calls) + StopCalls(BucketTargets(types0, connections, order), allTargets, allServices)
        decreases names
      {
        var n :| n in names;
        StoppedBucketsStep(types0, done, n, allServices);
        BucketTargetsAppend(types0, connections, order, n);
        StopCallsStep(BucketTargets(types0, connections, order), TargetsOf(connections, types0[n].subscribedClients),
                      allTargets, allServices);
        RemoveAllSrv(n);
        Concat3(old(log.calls), StopCalls(BucketTargets(types0, connections, order), allTargets, allServices),
                RemoveAllCalls(TargetsOf(connections, types0[n].subscribedClients), allTargets, allServices));
        DistinctAppend(order, n);
        order := order + [n];
        done := done + {n};
        names := names - {n};
      }
    }

    /**
     * run: one wifi-state poll per element of `polls`, calling startDiscovery
     * or stopDiscovery only when the state differs from the previous poll's
     * (the first poll is compared with WIFI_STATE_UNKNOWN); discovery is
     * stopped when the loop ends.
     */
    method Run(polls: seq<WifiEnv>)
      requires log.Valid() && LockValid()
      modifies this`allTypesByName, this`discoveryRunning, this`lockHolds, this`address, this`discoveryCalls, log
      ensures log.Valid() && LockValid() && !discoveryRunning && lockHolds == 0
      ensures discoveryCalls == old(discoveryCalls) + EdgeCalls(WIFI_STATE_UNKNOWN, polls) + [StopCall]
    {
      var lastWifiState := WIFI_STATE_UNKNOWN;
      var i := 0;
      while i < |polls|
        invariant 0 <= i <= |polls| && log.Valid() && LockValid()
        invariant discoveryCalls == old(discoveryCalls) + EdgeCalls(WIFI_STATE_UNKNOWN, polls[..i])
        invariant lastWifiState == LastPolled(WIFI_STATE_UNKNOWN, polls[..i])
      {
        var currentWifiState := polls[i].wifiState;
        EdgeCallsStep(WIFI_STATE_UNKNOWN, polls[..i], polls[i]);
        assert polls[..i + 1] == polls[..i] + [polls[i]];
        if currentWifiState != lastWifiState {
          if currentWifiState == WIFI_STATE_ENABLED {
            var listener := StartDiscovery(polls[i]);
          } else {
            var order := StopDiscovery();
          }
        }
        lastWifiState := currentWifiState;
        i := i + 1;
      }
      assert polls[..i] == polls;
      var order := StopDiscovery();
    }
  }

  /** The type table part-way through stopDiscovery: the buckets named in `done` have been emptied. */
  function StoppedBuckets(allTypesByName: map<string, SrvType>, done: set<string>, allServices: seq<Srv>): (r: map<string, SrvType>)
    ensures r.Keys == allTypesByName.Keys
  {
    map n | n in allTypesByName :: if n in done then RemoveEach(allTypesByName[n], allServices) else allTypesByName[n]
  }

  // ---- Steps of the loops above ----

  lemma UnsubscribedFromStep(allTypesByName: map<string, SrvType>, gone: set<string>, n: string, c: nat)
    requires n in allTypesByName && n !in gone
    ensures UnsubscribedFrom(allTypesByName, gone + {n}, c)
            == UnsubscribedFrom(allTypesByName, gone, c)[n := allTypesByName[n].(subscribedClients := RemoveFirst(allTypesByName[n].subscribedClients, c))]
  {
  }

  lemma StoppedBucketsStep(allTypesByName: map<string, SrvType>, done: set<string>, n: string, allServices: seq<Srv>)
    requires n in allTypesByName && n !in done
    ensures StoppedBuckets(allTypesByName, done + {n}, allServices)
            == StoppedBuckets(allTypesByName, done, allServices)[n := RemoveEach(allTypesByName[n], allServices)]
  {
  }

  lemma BucketTargetsAppend(allTypesByName: map<string, SrvType>, connections: map<nat, ConnectionState>, order: seq<string>, n: string)
    requires n in allTypesByName
    ensures BucketTargets(allTypesByName, connections, order + [n])
            == BucketTargets(allTypesByName, connections, order) + [TargetsOf(connections, allTypesByName[n].subscribedClients)]
  {
  }

  // ---- Every state change keeps the tables consistent ----

  lemma BindKeeps(r: Tables)
    requires TablesValid(r)
    ensures TablesValid(Bind(r))
  {
    assert forall d :: d in r.connections ==> d < r.connectionSerialCounter by {
      forall d | d in r.connections ensures d < r.connectionSerialCounter {
        assert ConnectionValid(d, r.connections[d], r.allTypesByName, r.subscribeAllClients, r.connectionSerialCounter);
      }
    }
  }

  lemma WithCallbacksKeeps(r: Tables, c: nat, present: bool)
    requires TablesValid(r) && c in r.connections
    ensures TablesValid(WithCallbacks(r, c, present))
  {
    var r' := WithCallbacks(r, c, present);
    forall n | n in r'.allTypesByName ensures BucketValid(n, r'.allTypesByName[n], r'.allServices, r'.connections) {
      assert BucketValid(n, r.allTypesByName[n], r.allServices, r.connections);
    }
  }

  /** ensureType keeps the registry consistent: a new bucket is empty and has no subscribers. */
  lemma EnsuredTypeKeeps(r: Tables, n: string)
    requires TablesValid(r)
    ensures TablesValid(EnsuredType(r, n))
  {
    var r' := EnsuredType(r, n);
    if n !in r.allTypesByName {
      forall c | c in r'.connections ensures n !in r'.connections[c].connectionTypes {
        assert ConnectionValid(c, r.connections[c], r.allTypesByName, r.subscribeAllClients, r.connectionSerialCounter);
      }
    }
  }

  /** A service-added message for an existing bucket: the new entry has the largest id. */
  lemma AddToBucketKeeps(r: Tables, e: ServiceEvent)
    requires TablesValid(r) && e.typeName in r.allTypesByName
    ensures TablesValid(AddedService(r, e))
  {
    var s := NewSrv(r, e);
    var t := r.allTypesByName[e.typeName];
    assert BucketValid(e.typeName, t, r.allServices, r.connections);
    AddedBucketValid(e.typeName, t, s, r.allServices, r.connections);
  }

  /** The bucket that gains the newest entry stays ordered, indexed and inside allServices. */
  lemma AddedBucketValid(n: string, t: SrvType, s: Srv, allServices: seq<Srv>, connections: map<nat, ConnectionState>)
    requires BucketValid(n, t, allServices, connections) && s.typeName == n
    requires forall x :: x in allServices ==> x.id < s.id
    ensures BucketValid(n, WithSrv(t, s), [s] + allServices, connections)
  {
    assert forall x :: x in t.typeServices ==> x.id < s.id;
  }

  /**
   * A service-added message keeps the registry consistent: its bucket
   * stays oldest first and allServices newest first.
   */
  lemma AddedServiceKeeps(r: Tables, e: ServiceEvent)
    requires TablesValid(r)
    ensures TablesValid(AddedService(r, e))
  {
    EnsuredTypeKeeps(r, e.typeName);
    AddToBucketKeeps(EnsuredType(r, e.typeName), e);
    EnsureThenAdd(r, e);
  }

  /** The handler's ensureType before addSrv changes nothing addSrv would not. */
  lemma EnsureThenAdd(r: Tables, e: ServiceEvent)
    ensures AddedService(EnsuredType(r, e.typeName), e) == AddedService(r, e)
  {
    var n := e.typeName;
    var r1 := EnsuredType(r, n);
    var w := WithSrv(BucketIn(r.allTypesByName, n), NewSrv(r, e));
    assert BucketIn(r1.allTypesByName, n) == BucketIn(r.allTypesByName, n);
    assert r1.allTypesByName[n := w] == r.allTypesByName[n := w];
  }

  /** The bucket that loses an entry stays ordered, indexed and inside what is left of allServices. */
  lemma RemovedBucketValid(n: string, t: SrvType, s: Srv, allServices: seq<Srv>, connections: map<nat, ConnectionState>)
    requires BucketValid(n, t, allServices, connections) && NewestFirst(allServices) && s in t.typeServices
    ensures BucketValid(n, WithoutSrv(t, s), RemoveFirst(allServices, s), connections)
  {
    OrderedDistinct(allServices);
    RemoveFirstDistinct(allServices, s);
    OrderedDistinct(t.typeServices);
    RemoveFirstDistinct(t.typeServices, s);
    RemoveKeepsOldestFirst(t.typeServices, s);
    var t' := WithoutSrv(t, s);
    forall k | k in t'.servicesByKey ensures t'.servicesByKey[k] in t'.typeServices {
      assert t.servicesByKey[k] != s;
    }
  }

  /** Another bucket does not hold the removed entry, so what it holds is still in allServices. */
  lemma OtherBucketValid(m: string, t: SrvType, s: Srv, allServices: seq<Srv>, connections: map<nat, ConnectionState>)
    requires BucketValid(m, t, allServices, connections) && NewestFirst(allServices) && s.typeName != m
    ensures BucketValid(m, t, RemoveFirst(allServices, s), connections)
  {
    OrderedDistinct(allServices);
    RemoveFirstDistinct(allServices, s);
  }

  /** A service-removed message for an indexed key. */
  lemma RemoveFromBucketKeeps(r: Tables, e: ServiceEvent)
    requires TablesValid(r) && !RemovalThrows(r, e)
    ensures TablesValid(RemovedService(r, e))
  {
    var n := e.typeName;
    var t := r.allTypesByName[n];
    var s := t.servicesByKey[e.key];
    var r' := RemovedService(r, e);
    assert BucketValid(n, t, r.allServices, r.connections);
    RemovedBucketValid(n, t, s, r.allServices, r.connections);
    OrderedDistinct(r.allServices);
    RemoveFirstDistinct(r.allServices, s);
    RemoveKeepsNewestFirst(r.allServices, s);
    forall m | m in r'.allTypesByName && m != n ensures BucketValid(m, r'.allTypesByName[m], r'.allServices, r'.connections) {
      OtherBucketValid(m, r.allTypesByName[m], s, r.allServices, r.connections);
    }
  }

  /**
   * A service-removed message keeps the registry consistent: the entry
   * removed belongs to its own bucket only, and removal keeps the order of
   * what is left.
   */
  lemma RemovedServiceKeeps(r: Tables, e: ServiceEvent)
    requires TablesValid(r)
    ensures TablesValid(RemovedService(r, e))
  {
    if RemovalThrows(r, e) {
      EnsuredTypeKeeps(r, e.typeName);
    } else {
      RemoveFromBucketKeeps(r, e);
    }
  }

  /** Every message of the handler keeps the registry consistent. */
  lemma MessageKeeps(r: Tables, m: Message)
    requires TablesValid(r)
    ensures TablesValid(AfterMessage(r, m))
  {
    match m
    case TypeAdded(n) => EnsuredTypeKeeps(r, n);
    case ServiceAdded(e) => AddedServiceKeeps(r, e);
    case ServiceRemoved(e) => RemovedServiceKeeps(r, e);
    case ServiceResolved(_) =>
  }

  lemma SubscribedAllKeeps(r: Tables, c: nat)
    requires TablesValid(r) && c in r.connections
    ensures TablesValid(SubscribedAll(r, c))
  {
    var r' := SubscribedAll(r, c);
    if !r.connections[c].connectionAllTypes {
      assert ConnectionValid(c, r.connections[c], r.allTypesByName, r.subscribeAllClients, r.connectionSerialCounter);
      DistinctAppend(r.subscribeAllClients, c);
      forall n | n in r'.allTypesByName ensures BucketValid(n, r'.allTypesByName[n], r'.allServices, r'.connections) {
        assert BucketValid(n, r.allTypesByName[n], r.allServices, r.connections);
      }
    }
  }

  lemma UnsubscribedAllKeeps(r: Tables, c: nat)
    requires TablesValid(r) && c in r.connections
    ensures TablesValid(UnsubscribedAll(r, c))
  {
    var r' := UnsubscribedAll(r, c);
    if r.connections[c].connectionAllTypes {
      assert ConnectionValid(c, r.connections[c], r.allTypesByName, r.subscribeAllClients, r.connectionSerialCounter);
      RemoveFirstDistinct(r.subscribeAllClients, c);
      forall n | n in r'.allTypesByName ensures BucketValid(n, r'.allTypesByName[n], r'.allServices, r'.connections) {
        assert BucketValid(n, r.allTypesByName[n], r.allServices, r.connections);
      }
    }
  }

  /** A connection joining an existing bucket it is not in, recorded on both sides. */
  lemma JoinBucketKeeps(r: Tables, c: nat, n: string)
    requires TablesValid(r) && c in r.connections && n in r.allTypesByName
    requires n !in r.connections[c].connectionTypes
    ensures var st := r.connections[c];
            var t := r.allTypesByName[n];
            TablesValid(r.(connections := r.connections[c := st.(connectionTypes := st.connectionTypes + [n])],
                           allTypesByName := r.allTypesByName[n := t.(subscribedClients := t.subscribedClients + [c])]))
  {
    var st := r.connections[c];
    var t := r.allTypesByName[n];
    assert BucketValid(n, t, r.allServices, r.connections);
    assert ConnectionValid(c, st, r.allTypesByName, r.subscribeAllClients, r.connectionSerialCounter);
    DistinctAppend(t.subscribedClients, c);
    DistinctAppend(st.connectionTypes, n);
    var r' := r.(connections := r.connections[c := st.(connectionTypes := st.connectionTypes + [n])],
                 allTypesByName := r.allTypesByName[n := t.(subscribedClients := t.subscribedClients + [c])]);
    forall m | m in r'.allTypesByName ensures BucketValid(m, r'.allTypesByName[m], r'.allServices, r'.connections) {
      assert BucketValid(m, r.allTypesByName[m], r.allServices, r.connections);
    }
  }

  /** A connection leaving a bucket it is in, recorded on both sides. */
  lemma LeaveBucketKeeps(r: Tables, c: nat, n: string)
    requires TablesValid(r) && c in r.connections && n in r.allTypesByName
    requires n in r.connections[c].connectionTypes
    ensures var st := r.connections[c];
            var t := r.allTypesByName[n];
            TablesValid(r.(connections := r.connections[c := st.(connectionTypes := RemoveFirst(st.connectionTypes, n))],
                           allTypesByName := r.allTypesByName[n := t.(subscribedClients := RemoveFirst(t.subscribedClients, c))]))
  {
    var st := r.connections[c];
    var t := r.allTypesByName[n];
    assert BucketValid(n, t, r.allServices, r.connections);
    assert ConnectionValid(c, st, r.allTypesByName, r.subscribeAllClients, r.connectionSerialCounter);
    RemoveFirstDistinct(t.subscribedClients, c);
    RemoveFirstDistinct(st.connectionTypes, n);
    var r' := r.(connections := r.connections[c := st.(connectionTypes := RemoveFirst(st.connectionTypes, n))],
                 allTypesByName := r.allTypesByName[n := t.(subscribedClients := RemoveFirst(t.subscribedClients, c))]);
    forall m | m in r'.allTypesByName ensures BucketValid(m, r'.allTypesByName[m], r'.allServices, r'.connections) {
      assert BucketValid(m, r.allTypesByName[m], r.allServices, r.connections);
    }
  }

  /** subscribeType keeps both sides of the per-type subscription in step. */
  lemma SubscribedTypeKeeps(r: Tables, c: nat, n: string)
    requires TablesValid(r) && c in r.connections
    ensures TablesValid(SubscribedType(r, c, n))
  {
    EnsuredTypeKeeps(r, n);
    var r1 := EnsuredType(r, n);
    if n !in r.connections[c].connectionTypes {
      JoinBucketKeeps(r1, c, n);
      assert BucketIn(r.allTypesByName, n) == r1.allTypesByName[n];
      assert c !in r1.allTypesByName[n].subscribedClients;
    }
  }

  /** unsubscribeType keeps both sides of the per-type subscription in step. */
  lemma UnsubscribedTypeKeeps(r: Tables, c: nat, n: string)
    requires TablesValid(r) && c in r.connections
    ensures TablesValid(UnsubscribedType(r, c, n))
  {
    EnsuredTypeKeeps(r, n);
    var r1 := EnsuredType(r, n);
    if n in r.connections[c].connectionTypes {
      LeaveBucketKeeps(r1, c, n);
      assert BucketIn(r.allTypesByName, n) == r1.allTypesByName[n];
    }
  }

  /**
   * Connection `c` keeping only the listed types `kept` (some of its own)
   * and leaving the buckets of the others keeps the tables consistent.
   */
  lemma KeepTypesKeeps(r: Tables, c: nat, kept: seq<string>)
    requires TablesValid(r) && c in r.connections
    requires Distinct(kept) && forall n :: n in kept ==> n in r.connections[c].connectionTypes
    ensures TablesValid(KeptTypes(r, c, kept))
  {
    KeptBucketsValid(r, c, kept);
    KeptConnectionsValid(r, c, kept);
    KeptSubscriptionsRecorded(r, c, kept);
  }

  lemma KeptBucketsValid(r: Tables, c: nat, kept: seq<string>)
    requires TablesValid(r) && c in r.connections
    ensures BucketsValid(KeptTypes(r, c, kept))
  {
    var r' := KeptTypes(r, c, kept);
    assert r'.connections.Keys == r.connections.Keys;
    forall n | n in r'.allTypesByName ensures BucketValid(n, r'.allTypesByName[n], r'.allServices, r'.connections)
    {
      var t := r.allTypesByName[n];
      assert BucketValid(n, t, r.allServices, r.connections);
      RemoveFirstDistinct(t.subscribedClients, c);
      FewerSubscribersValid(n, t, r'.allTypesByName[n].subscribedClients, r.allServices, r.connections, r'.connections);
    }
  }

  lemma KeptConnectionsValid(r: Tables, c: nat, kept: seq<string>)
    requires TablesValid(r) && c in r.connections
    requires Distinct(kept) && forall n :: n in kept ==> n in r.connections[c].connectionTypes
    ensures ConnectionsValid(KeptTypes(r, c, kept))
  {
    var r' := KeptTypes(r, c, kept);
    forall d | d in r'.connections
      ensures ConnectionValid(d, r'.connections[d], r'.allTypesByName, r'.subscribeAllClients, r'.connectionSerialCounter)
    {
      assert ConnectionValid(d, r.connections[d], r.allTypesByName, r.subscribeAllClients, r.connectionSerialCounter);
    }
  }

  lemma KeptSubscriptionsRecorded(r: Tables, c: nat, kept: seq<string>)
    requires TablesValid(r) && c in r.connections
    requires forall n :: n in kept ==> n in r.connections[c].connectionTypes
    ensures SubscriptionsRecorded(KeptTypes(r, c, kept))
  {
    var st := r.connections[c];
    var dropped := Dropped(st.connectionTypes, kept);
    var r' := KeptTypes(r, c, kept);
    forall d, n | d in r'.connections && n in r'.allTypesByName
      ensures n in r'.connections[d].connectionTypes <==> d in r'.allTypesByName[n].subscribedClients
    {
      var t := r.allTypesByName[n];
      assert BucketValid(n, t, r.allServices, r.connections);
      assert n in kept ==> n in st.connectionTypes;
      CrossAfterLeaving(n, d, c, r.connections[d].connectionTypes, r'.connections[d].connectionTypes,
                        t.subscribedClients, r'.allTypesByName[n].subscribedClients, dropped);
    }
  }


  /** A bucket that keeps some of its subscribers, over the same connections, is still consistent. */
  lemma FewerSubscribersValid(n: string, t: SrvType, cs: seq<nat>, allServices: seq<Srv>,
                              connections: map<nat, ConnectionState>, connections': map<nat, ConnectionState>)
    requires BucketValid(n, t, allServices, connections) && connections'.Keys == connections.Keys
    requires Distinct(cs) && forall d :: d in cs ==> d in t.subscribedClients
    ensures BucketValid(n, t.(subscribedClients := cs), allServices, connections')
  {
  }

  /** finalize as written keeps the tables consistent: both sides drop the same types. */
  lemma FinalizedKeeps(r: Tables, c: nat)
    requires TablesValid(r) && c in r.connections
    ensures TablesValid(Finalized(r, c))
  {
    var st := r.connections[c];
    assert ConnectionValid(c, st, r.allTypesByName, r.subscribeAllClients, r.connectionSerialCounter);
    SurvivorsSubset(st.connectionTypes);
    SurvivorsDistinct(st.connectionTypes);
    KeepTypesKeeps(r, c, EnumerationSurvivors(st.connectionTypes));
    UnsubscribedAllKeeps(KeptTypes(r, c, EnumerationSurvivors(st.connectionTypes)), c);
  }

  lemma DetachedKeeps(r: Tables, c: nat)
    requires TablesValid(r) && c in r.connections
    ensures TablesValid(Detached(r, c))
  {
    KeepTypesKeeps(r, c, []);
    UnsubscribedAllKeeps(KeptTypes(r, c, []), c);
  }

  /**
   * stopDiscovery empties every bucket, keeping its subscribers, and
   * leaves allServices, and every other table, as it was.
   */
  lemma StopEmptiesBuckets(r: Tables)
    requires TablesValid(r)
    ensures Stopped(r).allTypesByName.Keys == r.allTypesByName.Keys
    ensures forall n :: n in r.allTypesByName ==>
              Stopped(r).allTypesByName[n] == r.allTypesByName[n].(typeServices := [], servicesByKey := map[])
    ensures Stopped(r).allServices == r.allServices && Stopped(r).connections == r.connections
  {
    forall n | n in r.allTypesByName
      ensures Stopped(r).allTypesByName[n] == r.allTypesByName[n].(typeServices := [], servicesByKey := map[])
    {
      var t := r.allTypesByName[n];
      assert BucketValid(n, t, r.allServices, r.connections);
      OrderedDistinct(t.typeServices);
      RemoveAllEmpties(t, r.allServices);
    }
  }

  lemma StoppedKeeps(r: Tables)
    requires TablesValid(r)
    ensures TablesValid(Stopped(r))
  {
    StopEmptiesBuckets(r);
    var r' := Stopped(r);
    forall n | n in r'.allTypesByName ensures BucketValid(n, r'.allTypesByName[n], r'.allServices, r'.connections) {
      assert BucketValid(n, r.allTypesByName[n], r.allServices, r.connections);
    }
  }

  // ---- Properties of the registry ----

  /** A subscriber list as seen by the notify loops names each connection once. */
  lemma TargetsOfDistinct(connections: map<nat, ConnectionState>, cs: seq<nat>)
    requires Distinct(cs)
    ensures SerialsDistinct(TargetsOf(connections, cs))
    ensures forall c :: Target(c, true) in TargetsOf(connections, cs) <==> c in cs && c in connections && connections[c].hasCallbacks
  {
    var ts := TargetsOf(connections, cs);
    forall c ensures Target(c, true) in ts <==> c in cs && c in connections && connections[c].hasCallbacks {
      if c in cs {
        var i :| 0 <= i < |cs| && cs[i] == c;
        assert ts[i] == TargetOf(connections, c);
      }
    }
  }

  /**
   * A change in a bucket reaches a connection once per subscription: once
   * for the type, if it is subscribed to it, and once more for all types,
   * if it is subscribed to those; a connection without callbacks gets nothing.
   */
  lemma FanOutPerSubscription(r: Tables, n: string, c: nat, kind: Kind, key: string)
    requires TablesValid(r) && n in r.allTypesByName && c in r.connections
    ensures var st := r.connections[c];
            multiset(FanOut(kind, key, TargetsOf(r.connections, r.allTypesByName[n].subscribedClients),
                            TargetsOf(r.connections, r.subscribeAllClients)))[Call(c, kind, key)]
            == (if st.hasCallbacks && n in st.connectionTypes then 1 else 0)
               + (if st.hasCallbacks && st.connectionAllTypes then 1 else 0)
  {
    assert BucketValid(n, r.allTypesByName[n], r.allServices, r.connections);
    assert ConnectionValid(c, r.connections[c], r.allTypesByName, r.subscribeAllClients, r.connectionSerialCounter);
    TargetsOfDistinct(r.connections, r.allTypesByName[n].subscribedClients);
    TargetsOfDistinct(r.connections, r.subscribeAllClients);
    FanOutCount(kind, key, TargetsOf(r.connections, r.allTypesByName[n].subscribedClients),
                TargetsOf(r.connections, r.subscribeAllClients), c);
  }

  /** allTypeSubscriptions counts the connections flagged connectionAllTypes. */
  lemma AllTypeSubscriptionsCount(r: Tables)
    requires TablesValid(r)
    ensures r.allTypeSubscriptions == |set c: nat | c in r.connections && r.connections[c].connectionAllTypes|
  {
    var flagged := set c: nat | c in r.connections && r.connections[c].connectionAllTypes;
    forall c ensures c in flagged <==> c in r.subscribeAllClients {
      if c in r.connections {
        assert ConnectionValid(c, r.connections[c], r.allTypesByName, r.subscribeAllClients, r.connectionSerialCounter);
      }
    }
    assert flagged == set c: nat | c in r.subscribeAllClients;
    DistinctCard(r.subscribeAllClients);
    assert |flagged| == |r.subscribeAllClients|;
  }

  /**
   * finalize as written leaves a connection that listed two or more types
   * still subscribed to the second: it stays in that bucket's subscribers
   * and goes on receiving its changes.
   */
  lemma FinalizeKeepsSecondType(r: Tables, c: nat)
    requires TablesValid(r) && c in r.connections && |r.connections[c].connectionTypes| >= 2
    ensures var n := r.connections[c].connectionTypes[1];
            var r' := Finalized(r, c);
            && n in r'.connections[c].connectionTypes
            && n in r'.allTypesByName && c in r'.allTypesByName[n].subscribedClients
  {
    var st := r.connections[c];
    var n := st.connectionTypes[1];
    assert EnumerationSurvivors(st.connectionTypes)[0] == n;
    assert n !in Dropped(st.connectionTypes, EnumerationSurvivors(st.connectionTypes));
    assert ConnectionValid(c, st, r.allTypesByName, r.subscribeAllClients, r.connectionSerialCounter);
  }

  /** finalize as intended leaves the connection in no bucket and not subscribed to all types. */
  lemma DetachedLeavesNoSubscription(r: Tables, c: nat)
    requires TablesValid(r) && c in r.connections
    ensures var r' := Detached(r, c);
            && r'.connections[c].connectionTypes == [] && !r'.connections[c].connectionAllTypes
            && c !in r'.subscribeAllClients
            && forall n :: n in r'.allTypesByName ==> c !in r'.allTypesByName[n].subscribedClients
  {
    var st := r.connections[c];
    assert ConnectionValid(c, st, r.allTypesByName, r.subscribeAllClients, r.connectionSerialCounter);
    var r' := Detached(r, c);
    forall n | n in r'.allTypesByName ensures c !in r'.allTypesByName[n].subscribedClients {
      assert BucketValid(n, r.allTypesByName[n], r.allServices, r.connections);
      RemoveFirstDistinct(r.allTypesByName[n].subscribedClients, c);
    }
    RemoveFirstDistinct(r.subscribeAllClients, c);
  }

  // ---- removeAllSrv on a bucket's own tables ----

  /** One round of the removal fold on the bucket's list. */
  lemma WithoutStep(ts: seq<Srv>, all: seq<Srv>, i: nat)
    requires Distinct(ts) && i < |all|
    ensures RemoveFirst(Without(ts, Members(all[..i])), all[i]) == Without(ts, Members(all[..i + 1]))
  {
    assert all[..i + 1] == all[..i] + [all[i]];
    assert Members(all[..i + 1]) == Members(all[..i]) + {all[i]};
    RemoveFirstWithout(ts, Members(all[..i]), all[i]);
  }

  /** One round of the removal fold on the bucket's key index. */
  lemma KeysStep(ks: map<string, Srv>, all: seq<Srv>, i: nat)
    requires i < |all|
    ensures (ks - Keys(all[..i])) - {all[i].key} == ks - Keys(all[..i + 1])
  {
    assert all[..i + 1] == all[..i] + [all[i]];
    assert Keys(all[..i + 1]) == Keys(all[..i]) + {all[i].key};
  }

  /**
   * removeSrv applied to a bucket for every entry of `srvs` in turn leaves
   * the bucket's entries that are not among them, and the keys that are not theirs.
   */
  lemma {:induction false} RemoveEachFilters(t: SrvType, srvs: seq<Srv>)
    requires Distinct(t.typeServices)
    ensures RemoveEach(t, srvs) == t.(typeServices := Without(t.typeServices, Members(srvs)),
                                      servicesByKey := t.servicesByKey - Keys(srvs))
    decreases |srvs|
  {
    if srvs == [] {
      assert Members(srvs) == {} && Keys(srvs) == {};
      WithoutNothing(t.typeServices);
      assert t.servicesByKey - Keys(srvs) == t.servicesByKey;
    } else {
      var n := |srvs| - 1;
      RemoveEachFilters(t, srvs[..n]);
      WithoutStep(t.typeServices, srvs, n);
      KeysStep(t.servicesByKey, srvs, n);
      assert srvs[..n + 1] == srvs;
    }
  }

  /**
   * removeAllSrv on a bucket whose entries are all in allServices empties
   * it: no entry and no key is left.
   */
  lemma RemoveAllEmpties(t: SrvType, all: seq<Srv>)
    requires Distinct(t.typeServices) && BucketIndexed(t)
    requires forall s :: s in t.typeServices ==> s in all
    ensures RemoveEach(t, all) == t.(typeServices := [], servicesByKey := map[])
  {
    RemoveEachFilters(t, all);
    WithoutEverything(t.typeServices, Members(all));
    assert forall k :: k !in t.servicesByKey - Keys(all);
  }
}
