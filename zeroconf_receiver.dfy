/**
 * The registry the older application keeps inside its own activity: the
 * service types JmDNS reported, each a bucket of services by name, and the
 * newest-first list of every service that the activity's list adapter shows.
 *
 * JmDNS's listeners post messages to a Handler; `HandleMessage` applies one
 * message as a direct step. A message that dereferences a missing bucket or
 * a missing entry throws NullPointerException before it changes anything:
 * the spec function `Handle` returns None for it and the method reports
 * `NullPointer` and keeps the registry as it was.
 *
 * A bucket (`SrvType`) is only ever reached through `typesByName`, so it is
 * a value here; a service (`Srv`) is a value whose `id` stands for the
 * object's identity, which Vector.remove compares.
 */
module Receiver {
  import opened JavaTypes
  import opened Vectors
  import Broker

  /** A Srv object: its type and name are fixed; `resolved` is never set by the handler. */
  datatype Srv = Srv(id: nat, typeName: string, name: string, resolved: bool, lastEvent: Broker.ServiceEvent)

  /** A SrvType object: its name and its services by name. */
  datatype SrvType = SrvType(name: string, servicesByName: map<string, Srv>)

  /** The receiver's tables, and the identity the next Srv object gets. */
  datatype Registry = Registry(typesByName: map<string, SrvType>, allServices: seq<Srv>, nextId: nat)

  /** The outcome of one handled message. */
  datatype Outcome =
    | Handled
      /** a missing bucket (service-added or -removed) or a missing entry (service-removed) */
    | NullPointer

  /** `new Srv(e)`: unresolved, with the event as its last event. */
  function NewSrv(id: nat, e: Broker.ServiceEvent): Srv {
    Srv(id, e.typeName, e.name, false, e)
  }

  /** addSrv: files the entry under its own name, replacing any entry of that name. */
  function AddSrv(t: SrvType, s: Srv): (r: SrvType)
    ensures r.name == t.name
    ensures s.name in r.servicesByName && r.servicesByName[s.name] == s
    ensures forall k :: k != s.name ==> (k in r.servicesByName <==> k in t.servicesByName)
    ensures forall k :: k != s.name && k in t.servicesByName ==> r.servicesByName[k] == t.servicesByName[k]
  {
    t.(servicesByName := t.servicesByName[s.name := s])
  }

  /** removeSrv: drops whatever entry is filed under the entry's name. */
  function RemoveSrv(t: SrvType, s: Srv): (r: SrvType)
    ensures r.name == t.name && s.name !in r.servicesByName
    ensures forall k :: k != s.name ==> (k in r.servicesByName <==> k in t.servicesByName)
    ensures forall k :: k != s.name && k in t.servicesByName ==> r.servicesByName[k] == t.servicesByName[k]
  {
    t.(servicesByName := t.servicesByName - {s.name})
  }

  /** getSrvByName: null (None) when no entry has that name. */
  function GetSrvByName(t: SrvType, name: string): (r: Option<Srv>)
    ensures r.Some? <==> name in t.servicesByName
    ensures r.Some? ==> r.value == t.servicesByName[name]
  {
    if name in t.servicesByName then Some(t.servicesByName[name]) else None
  }

  /** Hashtable.get on the type table: null (None) for a type never added. */
  function GetType(typesByName: map<string, SrvType>, typeName: string): (t: Option<SrvType>)
    ensures t.Some? <==> typeName in typesByName
    ensures t.Some? ==> t.value == typesByName[typeName]
  {
    if typeName in typesByName then Some(typesByName[typeName]) else None
  }

  /** The entry filed under `n` and `k`: its own name and type, and listed. */
  ghost predicate IndexedAt(r: Registry, n: string, k: string)
    requires n in r.typesByName && k in r.typesByName[n].servicesByName
  {
    var s := r.typesByName[n].servicesByName[k];
    s.name == k && s.typeName == n && s in r.allServices
  }

  /**
   * What every handled message keeps: each bucket is filed under its own
   * name, every indexed entry is filed under its own type and name and is
   * listed, the list holds each object once, and every identity in use was
   * handed out before.
   */
  ghost predicate RegistryValid(r: Registry) {
    && (forall n :: n in r.typesByName ==> r.typesByName[n].name == n)
    && (forall n, k :: n in r.typesByName && k in r.typesByName[n].servicesByName ==> IndexedAt(r, n, k))
    && Distinct(r.allServices)
    && (forall i :: 0 <= i < |r.allServices| ==> r.allServices[i].id < r.nextId)
  }

  /** A new receiver's tables. */
  function Empty(): (r: Registry)
    ensures RegistryValid(r)
  {
    Registry(map[], [], 0)
  }

  /** Type-added: a new, empty SrvType under the name, replacing any bucket of that name. */
  function TypeAddedTo(r: Registry, typeName: string): Registry {
    r.(typesByName := r.typesByName[typeName := SrvType(typeName, map[])])
  }

  /** Service-added: the bucket's addSrv, then insertElementAt(s, 0); None when the bucket is missing. */
  function ServiceAddedTo(r: Registry, e: Broker.ServiceEvent): Option<Registry> {
    var t := GetType(r.typesByName, e.typeName);
    if t.None? then None
    else
      var s := NewSrv(r.nextId, e);
      Some(Registry(r.typesByName[e.typeName := AddSrv(t.value, s)], [s] + r.allServices, r.nextId + 1))
  }

  /**
   * Service-removed: the entry the bucket files under the event's name
   * leaves the bucket and, by identity, the list; None when the bucket or
   * the entry is missing.
   */
  function ServiceRemovedFrom(r: Registry, e: Broker.ServiceEvent): Option<Registry> {
    var t := GetType(r.typesByName, e.typeName);
    if t.None? then None
    else
      var s := GetSrvByName(t.value, e.name);
      if s.None? then None
      else Some(r.(typesByName := r.typesByName[e.typeName := RemoveSrv(t.value, s.value)],
                   allServices := RemoveFirst(r.allServices, s.value)))
  }

  /** The handler's dispatch on one message; None where it throws NullPointerException. */
  function Handle(r: Registry, m: Broker.Message): (o: Option<Registry>)
    ensures o.None? <==> || (m.ServiceAdded? && m.event.typeName !in r.typesByName)
                         || (m.ServiceRemoved? && (m.event.typeName !in r.typesByName
                                                   || m.event.name !in r.typesByName[m.event.typeName].servicesByName))
    ensures m.ServiceResolved? ==> o == Some(r)
  {
    match m
    case TypeAdded(n) => Some(TypeAddedTo(r, n))
    case ServiceAdded(e) => ServiceAddedTo(r, e)
    case ServiceRemoved(e) => ServiceRemovedFrom(r, e)
    case ServiceResolved(_) => Some(r)
  }

  /** notifyDataSetChanged calls one message makes: one after a handled service message, none after a type message. */
  function Notifications(m: Broker.Message, o: Option<Registry>): (n: nat)
    ensures n <= 1
    ensures n == 1 <==> !m.TypeAdded? && o.Some?
  {
    if m.TypeAdded? || o.None? then 0 else 1
  }

  /** Messages handled one after another; a throw ends the run (the Handler's exception is not caught). */
  function HandleAll(r: Registry, ms: seq<Broker.Message>): Option<Registry> {
    if ms == [] then Some(r)
    else
      var prev := HandleAll(r, ms[..|ms| - 1]);
      if prev.None? then None else Handle(prev.value, ms[|ms| - 1])
  }

  /**
   * Type-added installs an empty bucket under the name and leaves the other
   * buckets and the list alone; the entries a replaced bucket indexed stay
   * listed, indexed under that type no more.
   */
  lemma TypeAddedReplaces(r: Registry, typeName: string)
    ensures var r' := TypeAddedTo(r, typeName);
            && r'.typesByName[typeName] == SrvType(typeName, map[])
            && r'.typesByName.Keys == r.typesByName.Keys + {typeName}
            && (forall n :: n in r.typesByName && n != typeName ==> r'.typesByName[n] == r.typesByName[n])
            && r'.allServices == r.allServices && r'.nextId == r.nextId
    ensures RegistryValid(r) && typeName in r.typesByName ==>
              forall k :: k in r.typesByName[typeName].servicesByName ==>
                && r.typesByName[typeName].servicesByName[k] in TypeAddedTo(r, typeName).allServices
                && k !in TypeAddedTo(r, typeName).typesByName[typeName].servicesByName
  {
    if RegistryValid(r) && typeName in r.typesByName {
      forall k | k in r.typesByName[typeName].servicesByName
        ensures r.typesByName[typeName].servicesByName[k] in r.allServices
      {
        assert IndexedAt(r, typeName, k);
      }
    }
  }

  /**
   * Service-added succeeds exactly when the type has a bucket; it then puts
   * a new entry, one not listed before, at the head of the list and under
   * its name in that bucket, the bucket's other names and the other buckets
   * unchanged.
   */
  lemma ServiceAddedMeaning(r: Registry, e: Broker.ServiceEvent)
    requires RegistryValid(r)
    ensures ServiceAddedTo(r, e).Some? <==> e.typeName in r.typesByName
    ensures ServiceAddedTo(r, e).Some? ==>
              var r', s := ServiceAddedTo(r, e).value, NewSrv(r.nextId, e);
              && s !in r.allServices
              && r'.allServices == [s] + r.allServices && |r'.allServices| == |r.allServices| + 1
              && r'.typesByName.Keys == r.typesByName.Keys
              && r'.typesByName[e.typeName] == AddSrv(r.typesByName[e.typeName], s)
              && (forall n :: n in r.typesByName && n != e.typeName ==> r'.typesByName[n] == r.typesByName[n])
  {
  }

  /**
   * Service-removed succeeds exactly when the bucket exists and files an
   * entry under the name; that entry then leaves the bucket and the list,
   * which is one shorter, and nothing else changes.
   */
  lemma ServiceRemovedMeaning(r: Registry, e: Broker.ServiceEvent)
    requires RegistryValid(r)
    ensures ServiceRemovedFrom(r, e).Some? <==>
              e.typeName in r.typesByName && e.name in r.typesByName[e.typeName].servicesByName
    ensures ServiceRemovedFrom(r, e).Some? ==>
              var r', s := ServiceRemovedFrom(r, e).value, r.typesByName[e.typeName].servicesByName[e.name];
              && s in r.allServices && s !in r'.allServices
              && r'.allServices == RemoveFirst(r.allServices, s) && |r'.allServices| == |r.allServices| - 1
              && r'.typesByName.Keys == r.typesByName.Keys
              && e.name !in r'.typesByName[e.typeName].servicesByName
              && (forall n :: n in r.typesByName && n != e.typeName ==> r'.typesByName[n] == r.typesByName[n])
  {
    if e.typeName in r.typesByName && e.name in r.typesByName[e.typeName].servicesByName {
      var s := r.typesByName[e.typeName].servicesByName[e.name];
      assert IndexedAt(r, e.typeName, e.name);
      assert s.name == e.name;
      RemoveFirstDistinct(r.allServices, s);
    }
  }

  lemma TypeAddedKeeps(r: Registry, typeName: string)
    requires RegistryValid(r)
    ensures RegistryValid(TypeAddedTo(r, typeName))
  {
    var r' := TypeAddedTo(r, typeName);
    forall n, k | n in r'.typesByName && k in r'.typesByName[n].servicesByName
      ensures IndexedAt(r', n, k)
    {
      assert n != typeName;
      assert IndexedAt(r, n, k);
    }
  }

  lemma ServiceAddedKeeps(r: Registry, e: Broker.ServiceEvent)
    requires RegistryValid(r) && ServiceAddedTo(r, e).Some?
    ensures RegistryValid(ServiceAddedTo(r, e).value)
  {
    ServiceAddedMeaning(r, e);
    var r', s := ServiceAddedTo(r, e).value, NewSrv(r.nextId, e);
    DistinctPrepend(r.allServices, s);
    forall n, k | n in r'.typesByName && k in r'.typesByName[n].servicesByName
      ensures IndexedAt(r', n, k)
    {
      if n == e.typeName && k == e.name {
        assert r'.typesByName[n].servicesByName[k] == s == r'.allServices[0];
      } else {
        assert r'.typesByName[n].servicesByName[k] == r.typesByName[n].servicesByName[k];
        assert IndexedAt(r, n, k);
        var i :| 0 <= i < |r.allServices| && r.allServices[i] == r.typesByName[n].servicesByName[k];
        assert r'.allServices[i + 1] == r.allServices[i];
      }
    }
    forall i | 0 <= i < |r'.allServices| ensures r'.allServices[i].id < r'.nextId {
      if i > 0 { assert r'.allServices[i] == r.allServices[i - 1]; }
    }
  }

  lemma ServiceRemovedKeeps(r: Registry, e: Broker.ServiceEvent)
    requires RegistryValid(r) && ServiceRemovedFrom(r, e).Some?
    ensures RegistryValid(ServiceRemovedFrom(r, e).value)
  {
    ServiceRemovedMeaning(r, e);
    var r', s := ServiceRemovedFrom(r, e).value, r.typesByName[e.typeName].servicesByName[e.name];
    RemoveFirstDistinct(r.allServices, s);
    assert IndexedAt(r, e.typeName, e.name);
    forall n, k | n in r'.typesByName && k in r'.typesByName[n].servicesByName
      ensures IndexedAt(r', n, k)
    {
      var x := r.typesByName[n].servicesByName[k];
      assert r'.typesByName[n].servicesByName[k] == x;
      assert IndexedAt(r, n, k);
      assert x != s by {
        if n == e.typeName { assert k != e.name; } else { assert x.typeName != s.typeName; }
      }
      assert x in r'.allServices;
    }
    forall i | 0 <= i < |r'.allServices| ensures r'.allServices[i].id < r'.nextId {
      assert r'.allServices[i] in r.allServices;
    }
  }

  /** Every message the handler completes keeps RegistryValid. */
  lemma HandleKeeps(r: Registry, m: Broker.Message)
    requires RegistryValid(r) && Handle(r, m).Some?
    ensures RegistryValid(Handle(r, m).value)
  {
    match m
    case TypeAdded(n) => TypeAddedKeeps(r, n);
    case ServiceAdded(e) => ServiceAddedKeeps(r, e);
    case ServiceRemoved(e) => ServiceRemovedKeeps(r, e);
    case ServiceResolved(_) =>
  }

  /** Any run of messages that does not throw, from a valid registry, ends in a valid one. */
  lemma {:induction false} HandleAllKeeps(r: Registry, ms: seq<Broker.Message>)
    requires RegistryValid(r) && HandleAll(r, ms).Some?
    ensures RegistryValid(HandleAll(r, ms).value)
  {
    if ms != [] {
      HandleAllKeeps(r, ms[..|ms| - 1]);
      HandleKeeps(HandleAll(r, ms[..|ms| - 1]).value, ms[|ms| - 1]);
    }
  }

  /**
   * A service reported added twice and removed once stays on the list: the
   * second entry replaced the first in the bucket, and removal takes only
   * the entry the bucket still files.
   */
  lemma ReAddedLeavesStaleEntry(typeName: string, e: Broker.ServiceEvent)
    requires e.typeName == typeName
    ensures var ms := [Broker.TypeAdded(typeName), Broker.ServiceAdded(e), Broker.ServiceAdded(e), Broker.ServiceRemoved(e)];
            && HandleAll(Empty(), ms).Some?
            && HandleAll(Empty(), ms).value.allServices == [NewSrv(0, e)]
            && HandleAll(Empty(), ms).value.typesByName[typeName].servicesByName == map[]
  {
    var r1 := TypeAddedTo(Empty(), typeName);
    var r2 := ServiceAddedTo(r1, e).value;
    var r3 := ServiceAddedTo(r2, e).value;
    assert r3.allServices == [NewSrv(1, e), NewSrv(0, e)];
    assert r3.typesByName[typeName].servicesByName == map[e.name := NewSrv(1, e)];
    var ms := [Broker.TypeAdded(typeName), Broker.ServiceAdded(e), Broker.ServiceAdded(e), Broker.ServiceRemoved(e)];
    assert ms[..1] == [Broker.TypeAdded(typeName)] && ms[..1][..0] == [];
    assert ms[..2][..1] == ms[..1] && ms[..3][..2] == ms[..2] && ms[..4][..3] == ms[..3];
    assert HandleAll(Empty(), ms[..1]) == Some(r1);
    assert HandleAll(Empty(), ms[..2]) == Some(r2);
    assert HandleAll(Empty(), ms[..3]) == Some(r3);
  }

  /**
   * A type reported again gets a new, empty bucket, so removing a service
   * listed under the old one throws, though that service is still listed.
   */
  lemma ReAddedTypeOrphansEntries(typeName: string, e: Broker.ServiceEvent)
    requires e.typeName == typeName
    ensures var ms := [Broker.TypeAdded(typeName), Broker.ServiceAdded(e), Broker.TypeAdded(typeName)];
            && HandleAll(Empty(), ms).Some?
            && HandleAll(Empty(), ms).value.allServices == [NewSrv(0, e)]
            && HandleAll(Empty(), ms + [Broker.ServiceRemoved(e)]).None?
  {
    var ms := [Broker.TypeAdded(typeName), Broker.ServiceAdded(e), Broker.TypeAdded(typeName)];
    var r2 := ServiceAddedTo(TypeAddedTo(Empty(), typeName), e).value;
    assert ms[..1] == [Broker.TypeAdded(typeName)] && ms[..1][..0] == [];
    assert ms[..2][..1] == ms[..1] && ms[..3][..2] == ms[..2];
    assert (ms + [Broker.ServiceRemoved(e)])[..3] == ms;
    assert HandleAll(Empty(), ms[..1]) == Some(TypeAddedTo(Empty(), typeName));
    assert HandleAll(Empty(), ms[..2]) == Some(r2);
    assert HandleAll(Empty(), ms) == Some(TypeAddedTo(r2, typeName));
  }

  /** The text getView shows for an entry: its name, then its type, each on its own line. */
  function ItemText(s: Srv): (t: string)
    ensures |t| == |s.name| + |s.typeName| + 2
    ensures t[..|s.name|] == s.name && t[|s.name|] == '\n'
    ensures t[|s.name| + 1..|s.name| + 1 + |s.typeName|] == s.typeName && t[|t| - 1] == '\n'
  {
    s.name + "\n" + s.typeName + "\n"
  }

  // ---------------------------------------------------------------------------
  // The multicast lock: None is mcastLock == null, Some(h) a reference-counted
  // lock acquired h times more than released.

  /** acquireMulticastLock: a new lock, acquired once, only when there is none. */
  function Acquired(lock: Option<nat>): Option<nat> {
    if lock.None? then Some(1) else lock
  }

  /** releaseMulticastLock: an existing lock is released and dropped. */
  function Released(lock: Option<nat>): Option<nat> {
    None
  }

  /** Only ever one acquisition outstanding: a lock is held exactly while mcastLock is non-null. */
  predicate LockValid(lock: Option<nat>) {
    lock.None? || lock == Some(1)
  }

  /** Acquiring and releasing keep LockValid, and each is idempotent. */
  lemma LockCycle(lock: Option<nat>)
    requires LockValid(lock)
    ensures LockValid(Acquired(lock)) && Acquired(lock).Some? && Acquired(Acquired(lock)) == Acquired(lock)
    ensures LockValid(Released(lock)) && Released(lock).None? && Released(Released(lock)) == Released(lock)
    ensures lock.Some? ==> Acquired(lock) == lock
  {
  }

  // ---------------------------------------------------------------------------
  // The service-type listener.

  /** The listener's set of types seen, and the type-added messages it posted, in order. */
  datatype TypeListener = TypeListener(seenTypes: set<string>, sent: seq<string>)

  /** serviceTypeAdded: a message for a type not seen before, which is then remembered. */
  function TypeHeard(l: TypeListener, typeName: string): TypeListener {
    if typeName in l.seenTypes then l else TypeListener(l.seenTypes + {typeName}, l.sent + [typeName])
  }

  /** serviceTypeAdded for each type in turn. */
  function HeardAll(l: TypeListener, types: seq<string>): TypeListener {
    if types == [] then l else TypeHeard(HeardAll(l, types[..|types| - 1]), types[|types| - 1])
  }

  /** The first occurrence of each type, in the order they first appear. */
  function FirstOccurrences(types: seq<string>): seq<string> {
    if types == [] then []
    else
      var p := types[..|types| - 1];
      if types[|types| - 1] in p then FirstOccurrences(p) else FirstOccurrences(p) + [types[|types| - 1]]
  }

  /** Each type was posted at most once, and the posted types are the types seen. */
  ghost predicate SentOnce(l: TypeListener) {
    Distinct(l.sent) && forall x :: x in l.sent <==> x in l.seenTypes
  }

  lemma TypeHeardKeeps(l: TypeListener, typeName: string)
    requires SentOnce(l)
    ensures SentOnce(TypeHeard(l, typeName))
    ensures typeName in TypeHeard(l, typeName).seenTypes
  {
    if typeName !in l.seenTypes { DistinctAppend(l.sent, typeName); }
  }

  /** The first occurrences hold each type once, and every type that occurs. */
  lemma {:induction false} FirstOccurrencesOnce(types: seq<string>)
    ensures Distinct(FirstOccurrences(types))
    ensures forall x :: x in FirstOccurrences(types) <==> x in types
  {
    if types != [] {
      var p, x := types[..|types| - 1], types[|types| - 1];
      FirstOccurrencesOnce(p);
      assert types == p + [x];
      if x !in p { DistinctAppend(FirstOccurrences(p), x); }
    }
  }

  /**
   * Over its lifetime a new listener posts exactly the first occurrence of
   * each type it hears, in order, and so never the same type twice.
   */
  lemma {:induction false} HeardAllPostsFirstOccurrences(types: seq<string>)
    ensures HeardAll(TypeListener({}, []), types) == TypeListener((set x | x in types), FirstOccurrences(types))
    ensures SentOnce(HeardAll(TypeListener({}, []), types))
  {
    FirstOccurrencesOnce(types);
    if types != [] {
      var p, x := types[..|types| - 1], types[|types| - 1];
      HeardAllPostsFirstOccurrences(p);
      assert types == p + [x];
      assert (set y | y in types) == (set y | y in p) + {x};
    }
  }

  /** A SrvTypeListener: what serviceTypeAdded remembers and posts, and the types it listens to. */
  class SrvTypeListener {
    var seenTypes: set<string>
    /** The type-added messages posted to the receiver's handler. */
    var sent: seq<string>
    /** The types a SrvListener was added to JmDNS for. */
    var listening: seq<string>

    function State(): TypeListener
      reads this
    {
      TypeListener(seenTypes, sent)
    }

    constructor ()
      ensures State() == TypeListener({}, []) && listening == []
    {
      seenTypes, sent, listening := {}, [], [];
    }

    /** serviceTypeAdded: on a new type, post it, listen to it and remember it. */
    method ServiceTypeAdded(event: Broker.ServiceEvent)
      requires SentOnce(State()) && listening == sent
      modifies this
      ensures State() == TypeHeard(old(State()), event.typeName) && SentOnce(State())
      ensures listening == sent
    {
      var typeName := event.typeName;
      TypeHeardKeeps(State(), typeName);
      if typeName !in seenTypes {
        sent := sent + [typeName];
        listening := listening + [typeName];
        seenTypes := seenTypes + {typeName};
      }
    }
  }

  // ---------------------------------------------------------------------------
  // The receiver.

  class ZeroConfReceiver {
    var typesByName: map<string, SrvType>
    var allServices: seq<Srv>
    /** Identity for the next Srv object. */
    var nextId: nat
    /** notifyDataSetChanged calls on the list adapter. */
    var notified: nat
    /** mcastLock: None for null, else the acquisitions of the lock not yet released. */
    var mcastLock: Option<nat>

    ghost function Snapshot(): Registry
      reads this`typesByName, this`allServices, this`nextId
    {
      Registry(typesByName, allServices, nextId)
    }

    constructor ()
      ensures Snapshot() == Empty() && notified == 0 && mcastLock == None
    {
      typesByName, allServices, nextId := map[], [], 0;
      notified := 0;
      mcastLock := None;
    }

    method AcquireMulticastLock()
      modifies this`mcastLock
      ensures mcastLock == Acquired(old(mcastLock))
    {
      if mcastLock == None {
        mcastLock := Some(0);
        mcastLock := Some(mcastLock.value + 1);
      }
    }

    method ReleaseMulticastLock()
      modifies this`mcastLock
      ensures mcastLock == Released(old(mcastLock))
    {
      if mcastLock != None {
        mcastLock := None;
      }
    }

    /**
     * updateNotify's handleMessage: the message's change to the tables, then
     * notifyDataSetChanged after a service message; a throw leaves all as it was.
     */
    method HandleMessage(m: Broker.Message) returns (o: Outcome)
      modifies this`typesByName, this`allServices, this`nextId, this`notified
      ensures o == NullPointer <==> Handle(old(Snapshot()), m).None?
      ensures o == Handled ==> Snapshot() == Handle(old(Snapshot()), m).value
      ensures o == NullPointer ==> Snapshot() == old(Snapshot())
      ensures notified == old(notified) + Notifications(m, Handle(old(Snapshot()), m))
    {
      if m.TypeAdded? {
        var t := SrvType(m.typeName, map[]);
        typesByName := typesByName[t.name := t];
        return Handled;
      }
      var e := m.event;
      match m {
        case ServiceAdded(_) =>
        var t := GetType(typesByName, e.typeName);
        if t.None? { return NullPointer; }
        var s := NewSrv(nextId, e);
        nextId := nextId + 1;
        typesByName := typesByName[e.typeName := AddSrv(t.value, s)];
        allServices := [s] + allServices;
        case ServiceRemoved(_) =>
        var t := GetType(typesByName, e.typeName);
        if t.None? { return NullPointer; }
        var s := GetSrvByName(t.value, e.name);
        if s.None? { return NullPointer; }
        typesByName := typesByName[e.typeName := RemoveSrv(t.value, s.value)];
        allServices := RemoveFirst(allServices, s.value);
        case ServiceResolved(_) =>
      }
      notified := notified + 1;
      o := Handled;
    }

    /** getTypeCount: the number of buckets. */
    method GetTypeCount() returns (n: int)
      ensures n == |typesByName|
    {
      n := |typesByName|;
    }

    /** getServiceCount, and the adapter's getCount: the length of the list. */
    method GetServiceCount() returns (n: int)
      ensures n == |allServices|
    {
      n := |allServices|;
    }

    /** The adapter's getItem: the entry at `pos`; None where Vector.get throws. */
    method GetItem(pos: int) returns (r: Option<Srv>)
      ensures r.Some? <==> 0 <= pos < |allServices|
      ensures r.Some? ==> r.value == allServices[pos]
    {
      if 0 <= pos < |allServices| {
        r := Some(allServices[pos]);
      } else {
        r := None;
      }
    }

    /** The adapter's getItemId: the position itself. */
    method GetItemId(pos: int) returns (id: int)
      ensures id == pos
    {
      id := pos;
    }

    /** The adapter's isEmpty. */
    method IsEmpty() returns (b: bool)
      ensures b <==> |allServices| == 0
      ensures b <==> allServices == []
    {
      b := |allServices| == 0;
    }

    /** The adapter's getView text for `pos`; None where Vector.get throws. */
    method GetViewText(pos: int) returns (r: Option<string>)
      ensures r.Some? <==> 0 <= pos < |allServices|
      ensures r.Some? ==> r.value == ItemText(allServices[pos])
    {
      var s := GetItem(pos);
      if s.Some? {
        r := Some(s.value.name + "\n" + s.value.typeName + "\n");
      } else {
        r := None;
      }
    }
  }
}
