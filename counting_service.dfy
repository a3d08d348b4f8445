/**
 * The oldest zeroconf service: no registry of services yet, only the
 * subscription counters of its client connections and the guards around
 * starting and stopping JmDNS.
 *
 * A connection subscribes to all types (one flag and the service-wide
 * counter `allTypeSubscriptions`) or to single types (its `connectionTypes`
 * list and the type's own `subscriptions` counter). ensureType makes one
 * Type object per name and never replaces it, so a Type is known by its
 * name and the table `allTypes` maps each name to its counter.
 *
 * The class never initialises `allTypes`; the model writes that null table
 * as None (see `Initial`) and gives the evidently intended empty table as
 * the second constructor (see `Ready`).
 */
module CountingService {
  import opened JavaTypes
  import opened Vectors
  import opened Discovery

  /** A Connection stub's own fields. */
  datatype Conn = Conn(connectionAllTypes: bool, connectionTypes: seq<string>)

  /**
   * The service's counters: `allTypes` (None while null) maps each type
   * name to Type.subscriptions; `serial` numbers the connection stubs.
   */
  datatype Tables = Tables(allTypes: Option<map<string, int>>, allTypeSubscriptions: int,
                           connections: map<nat, Conn>, serial: nat)

  /** What a subscribeType or unsubscribeType call ends in. */
  datatype Outcome =
    | Done
      /** ensureType on the null `allTypes` */
    | NullPointer

  /** The connections subscribed to all types. */
  function Flagged(conns: map<nat, Conn>): set<nat> {
    set c | c in conns && conns[c].connectionAllTypes
  }

  /** The connections whose list holds the type `n`. */
  function Holders(conns: map<nat, Conn>, n: string): set<nat> {
    set c | c in conns && n in conns[c].connectionTypes
  }

  /**
   * The counters count what they promise to: `allTypeSubscriptions` the
   * connections subscribed to all types, each Type's `subscriptions` the
   * connections listing it; every connection lists a type once and only
   * types that exist, and its serial number was handed out before.
   */
  ghost predicate TablesValid(r: Tables) {
    && r.allTypeSubscriptions == |Flagged(r.connections)|
    && (forall c :: c in r.connections ==> ConnValid(r.connections[c], r.allTypes) && c < r.serial)
    && (r.allTypes.Some? ==> forall n :: n in r.allTypes.value ==> r.allTypes.value[n] == |Holders(r.connections, n)|)
  }

  /** A connection lists each type once, and only types in the table. */
  ghost predicate ConnValid(st: Conn, allTypes: Option<map<string, int>>) {
    Distinct(st.connectionTypes) && TypesExist(st.connectionTypes, allTypes)
  }

  predicate TypesExist(types: seq<string>, allTypes: Option<map<string, int>>) {
    forall i :: 0 <= i < |types| ==> allTypes.Some? && types[i] in allTypes.value
  }

  /** The fields as the class declares them: `allTypes` is never assigned. */
  function Initial(): (r: Tables)
    ensures TablesValid(r)
  {
    Tables(None, 0, map[], 0)
  }

  /** The fields with `allTypes` initialised to an empty table. */
  function Ready(): (r: Tables)
    ensures TablesValid(r)
  {
    Tables(Some(map[]), 0, map[], 0)
  }

  /** onBind: a new Connection stub, subscribed to nothing. */
  function Bound(r: Tables): Tables {
    r.(connections := r.connections[r.serial := Conn(false, [])], serial := r.serial + 1)
  }

  /** subscribeAll: sets the flag and counts it, unless it is already set. */
  function SubscribedAll(r: Tables, c: nat): Tables
    requires c in r.connections
  {
    var st := r.connections[c];
    if st.connectionAllTypes then r
    else r.(connections := r.connections[c := st.(connectionAllTypes := true)],
            allTypeSubscriptions := r.allTypeSubscriptions + 1)
  }

  /** unsubscribeAll: clears the flag and uncounts it, if it is set. */
  function UnsubscribedAll(r: Tables, c: nat): Tables
    requires c in r.connections
  {
    var st := r.connections[c];
    if !st.connectionAllTypes then r
    else r.(connections := r.connections[c := st.(connectionAllTypes := false)],
            allTypeSubscriptions := r.allTypeSubscriptions - 1)
  }

  /** ensureType on the type table: a new Type, counting nobody, for a new name; None on a null table. */
  function EnsuredType(allTypes: Option<map<string, int>>, n: string): Option<map<string, int>> {
    if allTypes.None? then None
    else if n in allTypes.value then allTypes
    else Some(allTypes.value[n := 0])
  }

  /** subscribeType: ensureType, then list the type and count the connection if it is not listed yet. */
  function SubscribedType(r: Tables, c: nat, n: string): Option<Tables>
    requires c in r.connections
  {
    var t := EnsuredType(r.allTypes, n);
    if t.None? then None
    else
      var st := r.connections[c];
      if n in st.connectionTypes then Some(r.(allTypes := t))
      else Some(r.(allTypes := Some(t.value[n := t.value[n] + 1]),
                   connections := r.connections[c := st.(connectionTypes := st.connectionTypes + [n])]))
  }

  /** unsubscribeType: ensureType, then unlist the type and uncount the connection if it is listed. */
  function UnsubscribedType(r: Tables, c: nat, n: string): Option<Tables>
    requires c in r.connections
  {
    var t := EnsuredType(r.allTypes, n);
    if t.None? then None
    else
      var st := r.connections[c];
      if n !in st.connectionTypes then Some(r.(allTypes := t))
      else Some(r.(allTypes := Some(t.value[n := t.value[n] - 1]),
                   connections := r.connections[c := st.(connectionTypes := RemoveFirst(st.connectionTypes, n))]))
  }

  /** The counters once Type.unsubscribe has run once on each type in `ns`. */
  function UncountedFrom(types: map<string, int>, ns: set<string>): (r: map<string, int>)
    ensures r.Keys == types.Keys
  {
    map n | n in types :: if n in ns then types[n] - 1 else types[n]
  }

  /** The connection's list cut down to `kept`, each type it no longer lists uncounted once. */
  function KeptTypes(r: Tables, c: nat, kept: seq<string>): Tables
    requires c in r.connections
  {
    var st := r.connections[c];
    var gone := Dropped(st.connectionTypes, kept);
    r.(allTypes := if r.allTypes.None? then None else Some(UncountedFrom(r.allTypes.value, gone)),
       connections := r.connections[c := st.(connectionTypes := kept)])
  }

  /** finalize as written: only every second listed type is left; then the all-types flag is cleared. */
  function Finalized(r: Tables, c: nat): Tables
    requires c in r.connections
  {
    UnsubscribedAll(KeptTypes(r, c, EnumerationSurvivors(r.connections[c].connectionTypes)), c)
  }

  /** finalize as intended: every listed type is left; then the all-types flag is cleared. */
  function Detached(r: Tables, c: nat): Tables
    requires c in r.connections
  {
    UnsubscribedAll(KeptTypes(r, c, []), c)
  }

  // ---------------------------------------------------------------------------
  // Counting.

  lemma FlaggedUpdate(conns: map<nat, Conn>, c: nat, x: Conn)
    requires c in conns
    ensures Flagged(conns[c := x]) == (Flagged(conns) - {c}) + (if x.connectionAllTypes then {c} else {})
  {
  }

  lemma HoldersUpdate(conns: map<nat, Conn>, c: nat, x: Conn, n: string)
    requires c in conns
    ensures Holders(conns[c := x], n) == (Holders(conns, n) - {c}) + (if n in x.connectionTypes then {c} else {})
  {
  }

  /** Changing one connection's flag moves the count of flagged connections by one. */
  lemma FlaggedCount(conns: map<nat, Conn>, c: nat, x: Conn)
    requires c in conns
    ensures var d := |Flagged(conns[c := x])| - |Flagged(conns)|;
            d == if x.connectionAllTypes == conns[c].connectionAllTypes then 0
                 else if x.connectionAllTypes then 1 else -1
  {
    FlaggedUpdate(conns, c, x);
    var a := Flagged(conns) - {c};
    if conns[c].connectionAllTypes {
      assert Flagged(conns) == a + {c};
    } else {
      assert Flagged(conns) == a;
    }
  }

  /** Listing or unlisting a type on one connection moves its holder count by one. */
  lemma HoldersCount(conns: map<nat, Conn>, c: nat, x: Conn, n: string)
    requires c in conns
    ensures var d := |Holders(conns[c := x], n)| - |Holders(conns, n)|;
            d == if (n in x.connectionTypes) == (n in conns[c].connectionTypes) then 0
                 else if n in x.connectionTypes then 1 else -1
  {
    HoldersUpdate(conns, c, x, n);
    var a := Holders(conns, n) - {c};
    if n in conns[c].connectionTypes {
      assert Holders(conns, n) == a + {c};
    } else {
      assert Holders(conns, n) == a;
    }
  }

  // ---------------------------------------------------------------------------
  // The all-types subscription.

  /**
   * subscribeAll and unsubscribeAll set and clear the flag, each a second
   * time changing nothing, and the counter moves exactly when the flag does.
   */
  lemma AllTypesIdempotent(r: Tables, c: nat)
    requires c in r.connections
    ensures SubscribedAll(r, c).connections[c].connectionAllTypes
    ensures !UnsubscribedAll(r, c).connections[c].connectionAllTypes
    ensures SubscribedAll(SubscribedAll(r, c), c) == SubscribedAll(r, c)
    ensures UnsubscribedAll(UnsubscribedAll(r, c), c) == UnsubscribedAll(r, c)
    ensures SubscribedAll(r, c).allTypeSubscriptions == r.allTypeSubscriptions + if r.connections[c].connectionAllTypes then 0 else 1
    ensures UnsubscribedAll(r, c).allTypeSubscriptions == r.allTypeSubscriptions - if r.connections[c].connectionAllTypes then 1 else 0
  {
  }

  lemma SubscribedAllKeeps(r: Tables, c: nat)
    requires TablesValid(r) && c in r.connections
    ensures TablesValid(SubscribedAll(r, c))
  {
    var st := r.connections[c];
    var x := st.(connectionAllTypes := true);
    if !st.connectionAllTypes {
      FlaggedCount(r.connections, c, x);
      forall n ensures Holders(r.connections[c := x], n) == Holders(r.connections, n) {
        HoldersUpdate(r.connections, c, x, n);
      }
    }
  }

  lemma UnsubscribedAllKeeps(r: Tables, c: nat)
    requires TablesValid(r) && c in r.connections
    ensures TablesValid(UnsubscribedAll(r, c))
  {
    var st := r.connections[c];
    var x := st.(connectionAllTypes := false);
    if st.connectionAllTypes {
      FlaggedCount(r.connections, c, x);
      forall n ensures Holders(r.connections[c := x], n) == Holders(r.connections, n) {
        HoldersUpdate(r.connections, c, x, n);
      }
    }
  }

  lemma BoundKeeps(r: Tables)
    requires TablesValid(r)
    ensures TablesValid(Bound(r)) && r.serial !in r.connections
    ensures Bound(r).connections[r.serial] == Conn(false, [])
  {
    var x := Conn(false, []);
    var conns := r.connections[r.serial := x];
    assert Flagged(conns) == Flagged(r.connections);
    forall n ensures Holders(conns, n) == Holders(r.connections, n) {
    }
  }

  // ---------------------------------------------------------------------------
  // Single types.

  /**
   * ensureType throws on a null table; otherwise it keeps an existing
   * Type and adds exactly one new one for a new name, and a second call
   * changes nothing.
   */
  lemma EnsuredTypeMeaning(allTypes: Option<map<string, int>>, n: string)
    ensures EnsuredType(allTypes, n).None? <==> allTypes.None?
    ensures allTypes.Some? ==>
              var t := EnsuredType(allTypes, n).value;
              && n in t && t.Keys == allTypes.value.Keys + {n}
              && (forall m :: m in allTypes.value ==> t[m] == allTypes.value[m])
              && (n !in allTypes.value ==> t[n] == 0 && |t| == |allTypes.value| + 1)
    ensures EnsuredType(EnsuredType(allTypes, n), n) == EnsuredType(allTypes, n)
  {
    if allTypes.Some? && n !in allTypes.value {
      assert EnsuredType(allTypes, n).value.Keys == allTypes.value.Keys + {n};
    }
  }

  /** A type no connection can list before it exists. */
  lemma NewTypeUnheld(r: Tables, n: string)
    requires TablesValid(r) && r.allTypes.Some? && n !in r.allTypes.value
    ensures Holders(r.connections, n) == {}
  {
  }

  /**
   * subscribeType throws exactly on a null table; otherwise the type is
   * listed afterwards, its counter is up by one iff it was not listed, and
   * a second call changes nothing.
   */
  lemma SubscribedTypeMeaning(r: Tables, c: nat, n: string)
    requires TablesValid(r) && c in r.connections
    ensures SubscribedType(r, c, n).None? <==> r.allTypes.None?
    ensures SubscribedType(r, c, n).Some? ==>
              var r' := SubscribedType(r, c, n).value;
              && n in r'.connections[c].connectionTypes && n in r'.allTypes.value
              && r'.allTypes.value[n] == (if n in r.allTypes.value then r.allTypes.value[n] else 0)
                                         + (if n in r.connections[c].connectionTypes then 0 else 1)
              && r'.allTypeSubscriptions == r.allTypeSubscriptions
              && c in r'.connections && SubscribedType(r', c, n) == Some(r')
  {
  }

  /**
   * unsubscribeType throws exactly on a null table; otherwise the type is
   * not listed afterwards, its counter is down by one iff it was listed,
   * and a second call changes nothing.
   */
  lemma UnsubscribedTypeMeaning(r: Tables, c: nat, n: string)
    requires TablesValid(r) && c in r.connections
    ensures UnsubscribedType(r, c, n).None? <==> r.allTypes.None?
    ensures UnsubscribedType(r, c, n).Some? ==>
              var r' := UnsubscribedType(r, c, n).value;
              && n !in r'.connections[c].connectionTypes && n in r'.allTypes.value
              && r'.allTypes.value[n] == (if n in r.allTypes.value then r.allTypes.value[n] else 0)
                                         - (if n in r.connections[c].connectionTypes then 1 else 0)
              && r'.allTypeSubscriptions == r.allTypeSubscriptions
              && c in r'.connections && UnsubscribedType(r', c, n) == Some(r')
  {
    var st := r.connections[c];
    if r.allTypes.Some? && n in st.connectionTypes {
      RemoveFirstDistinct(st.connectionTypes, n);
    }
  }

  lemma SubscribedTypeKeeps(r: Tables, c: nat, n: string)
    requires TablesValid(r) && c in r.connections && SubscribedType(r, c, n).Some?
    ensures TablesValid(SubscribedType(r, c, n).value)
  {
    var r' := SubscribedType(r, c, n).value;
    var st := r.connections[c];
    var t := EnsuredType(r.allTypes, n).value;
    if n !in r.allTypes.value { NewTypeUnheld(r, n); }
    if n !in st.connectionTypes {
      var x := st.(connectionTypes := st.connectionTypes + [n]);
      DistinctAppend(st.connectionTypes, n);
      FlaggedCount(r.connections, c, x);
      forall m | m in r'.allTypes.value ensures r'.allTypes.value[m] == |Holders(r'.connections, m)| {
        HoldersCount(r.connections, c, x, m);
      }
    }
  }

  lemma UnsubscribedTypeKeeps(r: Tables, c: nat, n: string)
    requires TablesValid(r) && c in r.connections && UnsubscribedType(r, c, n).Some?
    ensures TablesValid(UnsubscribedType(r, c, n).value)
  {
    var r' := UnsubscribedType(r, c, n).value;
    var st := r.connections[c];
    if n !in r.allTypes.value { NewTypeUnheld(r, n); }
    if n in st.connectionTypes {
      var x := st.(connectionTypes := RemoveFirst(st.connectionTypes, n));
      RemoveFirstDistinct(st.connectionTypes, n);
      FlaggedCount(r.connections, c, x);
      forall m | m in r'.allTypes.value ensures r'.allTypes.value[m] == |Holders(r'.connections, m)| {
        HoldersCount(r.connections, c, x, m);
      }
      forall d | d in r'.connections ensures ConnValid(r'.connections[d], r'.allTypes) {
        assert ConnValid(r.connections[d], r.allTypes);
        TypesExistMonotone(r.connections[d].connectionTypes, r'.connections[d].connectionTypes, r.allTypes, r'.allTypes);
      }
    }
  }

  // ---------------------------------------------------------------------------
  // finalize.

  lemma KeptTypesKeeps(r: Tables, c: nat, kept: seq<string>)
    requires TablesValid(r) && c in r.connections
    requires Distinct(kept) && forall n :: n in kept ==> n in r.connections[c].connectionTypes
    ensures TablesValid(KeptTypes(r, c, kept))
  {
    var st := r.connections[c];
    var x := st.(connectionTypes := kept);
    var r' := KeptTypes(r, c, kept);
    FlaggedCount(r.connections, c, x);
    if r.allTypes.Some? {
      forall m | m in r'.allTypes.value ensures r'.allTypes.value[m] == |Holders(r'.connections, m)| {
        HoldersCount(r.connections, c, x, m);
      }
    }
    forall d | d in r'.connections ensures ConnValid(r'.connections[d], r'.allTypes) {
      assert ConnValid(r.connections[d], r.allTypes);
      TypesExistMonotone(r.connections[d].connectionTypes, r'.connections[d].connectionTypes, r.allTypes, r'.allTypes);
    }
  }

  lemma FinalizedKeeps(r: Tables, c: nat)
    requires TablesValid(r) && c in r.connections
    ensures TablesValid(Finalized(r, c))
  {
    var types := r.connections[c].connectionTypes;
    SurvivorsSubset(types);
    SurvivorsDistinct(types);
    KeptTypesKeeps(r, c, EnumerationSurvivors(types));
    UnsubscribedAllKeeps(KeptTypes(r, c, EnumerationSurvivors(types)), c);
  }

  lemma DetachedKeeps(r: Tables, c: nat)
    requires TablesValid(r) && c in r.connections
    ensures TablesValid(Detached(r, c))
  {
    KeptTypesKeeps(r, c, []);
    UnsubscribedAllKeeps(KeptTypes(r, c, []), c);
  }

  /**
   * finalize, as written and as intended, leaves the all-types flag clear
   * and takes one from `allTypeSubscriptions` exactly when it was set.
   */
  lemma FinalizeClearsAllTypes(r: Tables, c: nat)
    requires c in r.connections
    ensures !Finalized(r, c).connections[c].connectionAllTypes && !Detached(r, c).connections[c].connectionAllTypes
    ensures Finalized(r, c).allTypeSubscriptions == r.allTypeSubscriptions - if r.connections[c].connectionAllTypes then 1 else 0
    ensures Detached(r, c).allTypeSubscriptions == r.allTypeSubscriptions - if r.connections[c].connectionAllTypes then 1 else 0
  {
  }

  /** finalize as written leaves a connection that listed two or more types subscribed to the second, and counted. */
  lemma FinalizeKeepsSecondType(r: Tables, c: nat)
    requires TablesValid(r) && c in r.connections && |r.connections[c].connectionTypes| >= 2
    ensures var n := r.connections[c].connectionTypes[1];
            var r' := Finalized(r, c);
            && n in r'.connections[c].connectionTypes
            && r'.allTypes.Some? && n in r'.allTypes.value && c in Holders(r'.connections, n)
            && r'.allTypes.value[n] == r.allTypes.value[n] >= 1
  {
    var types := r.connections[c].connectionTypes;
    var n := types[1];
    assert EnumerationSurvivors(types)[0] == n;
    assert n !in Dropped(types, EnumerationSurvivors(types));
    FinalizedKeeps(r, c);
  }

  /** finalize as intended leaves the connection subscribed to nothing and counted nowhere. */
  lemma DetachedLeavesNoSubscription(r: Tables, c: nat)
    requires TablesValid(r) && c in r.connections
    ensures var r' := Detached(r, c);
            && r'.connections[c] == Conn(false, [])
            && c !in Flagged(r'.connections)
            && forall n :: c !in Holders(r'.connections, n)
  {
  }

  // ---------------------------------------------------------------------------
  // The null type table.

  /** As the class is written, subscribeType and unsubscribeType throw on every connection it binds. */
  lemma UninitialisedTypesThrow(n: string)
    ensures SubscribedType(Bound(Initial()), 0, n).None?
    ensures UnsubscribedType(Bound(Initial()), 0, n).None?
  {
    assert 0 in Bound(Initial()).connections;
  }

  /** With `allTypes` initialised, a new connection's subscribeType makes the type and counts the connection once. */
  lemma ReadySubscribeCounts(n: string)
    ensures var r := SubscribedType(Bound(Ready()), 0, n);
            && r.Some? && r.value.connections[0].connectionTypes == [n]
            && r.value.allTypes == Some(map[n := 1]) && TablesValid(r.value)
  {
    BoundKeeps(Ready());
    SubscribedTypeKeeps(Bound(Ready()), 0, n);
    assert map[][n := 0][n := 0 + 1] == map[n := 1];
  }

  // ---------------------------------------------------------------------------
  // Discovery.

  /** mDNS != null, the multicast lock's outstanding acquisitions, and the address JmDNS runs on. */
  datatype Radio = Radio(running: bool, lockHolds: int, address: seq<octet>)

  /** A start attempt that this service carries through: it also needs the DHCP info. */
  predicate Starts(env: WifiEnv) {
    StartSucceeds(env) && env.dhcpInfo
  }

  /**
   * startDiscovery: nothing when running or when a guard fails; otherwise
   * the lock is acquired and JmDNS created on the address, the lock being
   * released again when creation fails.
   */
  function Started(d: Radio, env: WifiEnv): Radio {
    if d.running || env.wifiState != WIFI_STATE_ENABLED || env.connectionInfo.None? || !env.dhcpInfo then d
    else if env.createOk then Radio(true, d.lockHolds + 1, AddressBytes(env.connectionInfo.value))
    else d
  }

  /** stopDiscovery: when running, JmDNS is closed and the lock released. */
  function Stopped(d: Radio): Radio {
    if d.running then d.(running := false, lockHolds := d.lockHolds - 1) else d
  }

  /** The lock is held exactly while JmDNS runs. */
  predicate LockFollows(d: Radio) {
    d.lockHolds == if d.running then 1 else 0
  }

  /**
   * Starting runs discovery exactly when it ran or the attempt goes through,
   * on the attempt's address; every early return changes nothing; both
   * keep the lock following the running flag, and each repeated is idle.
   */
  lemma DiscoveryGuards(d: Radio, env: WifiEnv, env2: WifiEnv)
    requires LockFollows(d)
    ensures d.running ==> Started(d, env) == d
    ensures !d.running ==> (Started(d, env).running <==> Starts(env))
    ensures !d.running && !Starts(env) ==> Started(d, env) == d
    ensures !d.running && Starts(env) ==> Started(d, env).address == AddressBytes(env.connectionInfo.value)
    ensures LockFollows(Started(d, env)) && LockFollows(Stopped(d)) && !Stopped(d).running
    ensures Started(d, env).running ==> Started(Started(d, env), env2) == Started(d, env)
    ensures Stopped(Stopped(d)) == Stopped(d)
  {
  }

  // ---------------------------------------------------------------------------
  // The service.

  class Service {
    var allTypes: Option<map<string, int>>
    var allTypeSubscriptions: int
    var connections: map<nat, Conn>
    var serial: nat
    var running: bool
    var lockHolds: int
    var address: seq<octet>

    ghost function Snapshot(): Tables
      reads this`allTypes, this`allTypeSubscriptions, this`connections, this`serial
    {
      Tables(allTypes, allTypeSubscriptions, connections, serial)
    }

    ghost function Discovering(): Radio
      reads this`running, this`lockHolds, this`address
    {
      Radio(running, lockHolds, address)
    }

    /** The fields as declared: `allTypes` stays null. */
    constructor ()
      ensures Snapshot() == Initial() && Discovering() == Radio(false, 0, [])
    {
      allTypes, allTypeSubscriptions, connections, serial := None, 0, map[], 0;
      running, lockHolds, address := false, 0, [];
    }

    /** The fields with `allTypes` initialised to an empty table. */
    constructor Initialised()
      ensures Snapshot() == Ready() && Discovering() == Radio(false, 0, [])
    {
      allTypes, allTypeSubscriptions, connections, serial := Some(map[]), 0, map[], 0;
      running, lockHolds, address := false, 0, [];
    }

    /** onBind: a new Connection stub. */
    method OnBind() returns (c: nat)
      modifies this`connections, this`serial
      ensures c == old(serial) && Snapshot() == Bound(old(Snapshot()))
    {
      c := serial;
      connections := connections[c := Conn(false, [])];
      serial := serial + 1;
    }

    method SubscribeAll(c: nat)
      requires c in connections
      modifies this`connections, this`allTypeSubscriptions
      ensures Snapshot() == SubscribedAll(old(Snapshot()), c)
    {
      if !connections[c].connectionAllTypes {
        connections := connections[c := connections[c].(connectionAllTypes := true)];
        allTypeSubscriptions := allTypeSubscriptions + 1;
      }
    }

    method UnsubscribeAll(c: nat)
      requires c in connections
      modifies this`connections, this`allTypeSubscriptions
      ensures Snapshot() == UnsubscribedAll(old(Snapshot()), c)
    {
      if connections[c].connectionAllTypes {
        allTypeSubscriptions := allTypeSubscriptions - 1;
        connections := connections[c := connections[c].(connectionAllTypes := false)];
      }
    }

    /** ensureType: the Type's name, as its identity; None where the null table throws. */
    method EnsureType(n: string) returns (t: Option<string>)
      modifies this`allTypes
      ensures allTypes == EnsuredType(old(allTypes), n)
      ensures t.Some? <==> old(allTypes).Some?
      ensures t.Some? ==> t.value == n
    {
      if allTypes.None? {
        return None;
      }
      if n !in allTypes.value {
        allTypes := Some(allTypes.value[n := 0]);
      }
      t := Some(n);
    }

    /** Type.subscribe */
    method Subscribe(n: string)
      requires allTypes.Some? && n in allTypes.value
      modifies this`allTypes
      ensures allTypes == Some(old(allTypes.value)[n := old(allTypes.value[n]) + 1])
    {
      allTypes := Some(allTypes.value[n := allTypes.value[n] + 1]);
    }

    /** Type.unsubscribe */
    method Unsubscribe(n: string)
      requires allTypes.Some? && n in allTypes.value
      modifies this`allTypes
      ensures allTypes == Some(Decremented(old(allTypes).value, n))
    {
      allTypes := Some(allTypes.value[n := allTypes.value[n] - 1]);
    }

    method SubscribeType(c: nat, n: string) returns (o: Outcome)
      requires c in connections
      modifies this`allTypes, this`connections
      ensures o == NullPointer <==> SubscribedType(old(Snapshot()), c, n).None?
      ensures o == NullPointer ==> Snapshot() == old(Snapshot())
      ensures o == Done ==> Snapshot() == SubscribedType(old(Snapshot()), c, n).value
    {
      var t := EnsureType(n);
      if t.None? {
        return NullPointer;
      }
      var st := connections[c];
      if n !in st.connectionTypes {
        connections := connections[c := st.(connectionTypes := st.connectionTypes + [n])];
        Subscribe(n);
      }
      o := Done;
    }

    method UnsubscribeType(c: nat, n: string) returns (o: Outcome)
      requires c in connections
      modifies this`allTypes, this`connections
      ensures o == NullPointer <==> UnsubscribedType(old(Snapshot()), c, n).None?
      ensures o == NullPointer ==> Snapshot() == old(Snapshot())
      ensures o == Done ==> Snapshot() == UnsubscribedType(old(Snapshot()), c, n).value
    {
      var t := EnsureType(n);
      if t.None? {
        return NullPointer;
      }
      var st := connections[c];
      if n in st.connectionTypes {
        connections := connections[c := st.(connectionTypes := RemoveFirst(st.connectionTypes, n))];
        Unsubscribe(n);
      }
      o := Done;
    }

    /**
     * finalize as written: an Enumeration over connectionTypes that removes
     * the element it has just returned, so the next element moves under the
     * enumeration's index and is skipped; then the all-types flag is cleared.
     */
    method Finalize(c: nat)
      requires TablesValid(Snapshot()) && c in connections
      modifies this`allTypes, this`connections, this`allTypeSubscriptions
      ensures Snapshot() == Finalized(old(Snapshot()), c)
    {
      var st := connections[c];
      assert ConnValid(st, allTypes);
      var types := EnumerateUnsubscribing(st.connectionTypes);
      connections := connections[c := st.(connectionTypes := types)];
      UnsubscribeAll(c);
    }

    /** finalize's loop on the connection's list `o`: what is left of it, and the counters it leaves. */
    method EnumerateUnsubscribing(o: seq<string>) returns (types: seq<string>)
      requires Distinct(o) && TypesExist(o, allTypes)
      modifies this`allTypes
      ensures types == EnumerationSurvivors(o)
      ensures allTypes == if old(allTypes).None? then None else Some(UncountedFrom(old(allTypes).value, Dropped(o, types)))
    {
      types := o;
      if allTypes.None? {
        NothingListed(o, allTypes);
        return;
      }
      ghost var t0 := allTypes.value;
      var k := 0;
      EnumeratingStart(o, t0);
      while k < |types|
        invariant allTypes.Some? && Enumerating(o, t0, k, types, allTypes.value)
      {
        EnumeratingStep(o, t0, k, types, allTypes.value);
        var n := types[k];
        k := k + 1;
        if n in types {
          types := RemoveFirst(types, n);
          Unsubscribe(n);
        }
      }
      EnumerationCursorEnd(o, k);
    }

    /** finalize as intended: every listed type is dropped, by a loop over a copy of the list. */
    method Detach(c: nat)
      requires TablesValid(Snapshot()) && c in connections
      modifies this`allTypes, this`connections, this`allTypeSubscriptions
      ensures Snapshot() == Detached(old(Snapshot()), c)
    {
      var st := connections[c];
      assert ConnValid(st, allTypes);
      var types := DropEach(st.connectionTypes);
      connections := connections[c := st.(connectionTypes := types)];
      UnsubscribeAll(c);
    }

    /** The corrected loop on the connection's list `o`: every type is uncounted, and nothing is left. */
    method DropEach(o: seq<string>) returns (types: seq<string>)
      requires Distinct(o) && TypesExist(o, allTypes)
      modifies this`allTypes
      ensures types == []
      ensures allTypes == if old(allTypes).None? then None else Some(UncountedFrom(old(allTypes).value, Dropped(o, types)))
    {
      types := o;
      if allTypes.None? {
        NothingListed(o, allTypes);
        return;
      }
      ghost var t0 := allTypes.value;
      UncountedNothing(t0, o);
      var i := 0;
      while i < |o|
        invariant allTypes.Some? && Dropping(o, t0, i, types, allTypes.value)
      {
        DroppingStep(o, t0, i, types, allTypes.value);
        var n := o[i];
        types := RemoveFirst(types, n);
        Unsubscribe(n);
        i := i + 1;
      }
    }

    /**
     * startDiscovery: the guards in order (running, wifi state, connection
     * info, DHCP info), then the lock is acquired and JmDNS created on the
     * address, the lock being released again when that fails.
     */
    method StartDiscovery(env: WifiEnv)
      modifies this`running, this`lockHolds, this`address
      ensures Discovering() == Started(old(Discovering()), env)
    {
      if running {
        return;
      }
      if env.wifiState != WIFI_STATE_ENABLED {
        return;
      }
      if env.connectionInfo.None? {
        return;
      }
      if !env.dhcpInfo {
        return;
      }
      var addressBytes := AddressBytes(env.connectionInfo.value);
      lockHolds := lockHolds + 1;
      if env.createOk {
        running := true;
        address := addressBytes;
      } else {
        lockHolds := lockHolds - 1;
      }
    }

    /** stopDiscovery: when running, JmDNS is closed (its exception ignored) and the lock released. */
    method StopDiscovering()
      modifies this`running, this`lockHolds
      ensures Discovering() == Stopped(old(Discovering()))
    {
      if !running {
        return;
      }
      running := false;
      lockHolds := lockHolds - 1;
    }

    /** WifiStateListener.onReceive: start when wifi is enabled, stop otherwise. */
    method OnReceive(env: WifiEnv) returns (ghost action: Action)
      modifies this`running, this`lockHolds, this`address
      ensures action == ActionFor(env.wifiState)
      ensures action == StartAction ==> Discovering() == Started(old(Discovering()), env)
      ensures action == StopAction ==> Discovering() == Stopped(old(Discovering()))
    {
      action := ActionFor(env.wifiState);
      if env.wifiState == WIFI_STATE_ENABLED {
        StartDiscovery(env);
      } else {
        StopDiscovering();
      }
    }

    /** onCreate: a new reference-counted lock nobody holds, then startDiscovery. */
    method OnCreate(env: WifiEnv)
      modifies this`running, this`lockHolds, this`address
      ensures Discovering() == Started(old(Discovering()).(lockHolds := 0), env)
    {
      lockHolds := 0;
      StartDiscovery(env);
    }

    /** onDestroy: stopDiscovery. */
    method OnDestroy()
      modifies this`running, this`lockHolds
      ensures Discovering() == Stopped(old(Discovering()))
    {
      StopDiscovering();
    }
  }

  /** Nothing is uncounted before the loop has dropped a type. */
  lemma UncountedNothing(t: map<string, int>, o: seq<string>)
    ensures Dropped(o, o) == {}
    ensures UncountedFrom(t, Dropped(o, o)) == t
  {
    assert Dropped(o, o) == {};
  }

  /** A null table lists nothing. */
  lemma NothingListed(o: seq<string>, t: Option<map<string, int>>)
    requires TypesExist(o, t)
    ensures t.None? ==> o == [] && EnumerationSurvivors(o) == [] && Dropped(o, o) == {}
  {
    if o != [] {
      var x := o[0];
      assert t.Some? && x in t.value;
    }
  }

  /** A list of types that exist keeps existing as it shrinks and as the table grows. */
  lemma TypesExistMonotone(types: seq<string>, types': seq<string>, t: Option<map<string, int>>, t': Option<map<string, int>>)
    requires TypesExist(types, t)
    requires forall y :: y in types' ==> y in types
    requires t.Some? ==> t'.Some? && t.value.Keys <= t'.value.Keys
    ensures TypesExist(types', t')
  {
    forall i | 0 <= i < |types'| ensures t'.Some? && types'[i] in t'.value {
      assert types'[i] in types;
    }
  }

  /** What finalize's loop has done after `k` elements: the list is at the cursor, each dropped type uncounted once. */
  ghost predicate Enumerating(o: seq<string>, t0: map<string, int>, k: nat, types: seq<string>, counts: map<string, int>) {
    && 2 * k <= |o| + 1 && types == EnumerationCursor(o, k) && Distinct(types)
    && counts == UncountedFrom(t0, Dropped(o, types))
  }

  lemma EnumeratingStart(o: seq<string>, t0: map<string, int>)
    requires Distinct(o)
    ensures Enumerating(o, t0, 0, o, t0)
  {
    assert o[..0] == [] && o[0..] == o;
    UncountedNothing(t0, o);
  }

  /** One round of finalize's loop: the element under the cursor is listed, and removing and uncounting it moves the cursor on. */
  lemma EnumeratingStep(o: seq<string>, t0: map<string, int>, k: nat, types: seq<string>, counts: map<string, int>)
    requires Distinct(o) && TypesExist(o, Some(t0)) && Enumerating(o, t0, k, types, counts) && k < |types|
    ensures types[k] in types && types[k] in counts
    ensures Enumerating(o, t0, k + 1, RemoveFirst(types, types[k]), Decremented(counts, types[k]))
  {
    EnumerationCursorStep(o, k);
    var n := types[k];
    assert n == o[2 * k] && n in t0;
    DroppedStep(o, types, n);
    UncountedFromStep(t0, Dropped(o, types), n);
  }

  /** What the corrected loop has done after `i` elements: the rest of the list is left, each dropped type uncounted once. */
  ghost predicate Dropping(o: seq<string>, t0: map<string, int>, i: nat, types: seq<string>, counts: map<string, int>) {
    && i <= |o| && types == o[i..]
    && counts == UncountedFrom(t0, Dropped(o, types))
  }

  lemma DroppingStep(o: seq<string>, t0: map<string, int>, i: nat, types: seq<string>, counts: map<string, int>)
    requires Distinct(o) && TypesExist(o, Some(t0)) && Dropping(o, t0, i, types, counts) && i < |o|
    ensures o[i] in counts
    ensures Dropping(o, t0, i + 1, RemoveFirst(types, o[i]), Decremented(counts, o[i]))
  {
    var n := o[i];
    assert types == [n] + o[i + 1..] && n in t0;
    DroppedStep(o, types, n);
    UncountedFromStep(t0, Dropped(o, types), n);
  }

  /** One Type.unsubscribe on the table of counters. */
  function Decremented(types: map<string, int>, n: string): map<string, int>
    requires n in types
  {
    types[n := types[n] - 1]
  }

  /** One more Type.unsubscribe on a type not uncounted yet. */
  lemma UncountedFromStep(types: map<string, int>, gone: set<string>, n: string)
    requires n in types && n !in gone
    ensures n in UncountedFrom(types, gone)
    ensures Decremented(UncountedFrom(types, gone), n) == UncountedFrom(types, gone + {n})
  {
  }
}
