/**
 * Values shared by both versions of the zeroconf service's registry and
 * subscription broker: the events JmDNS reports, the internal service
 * entries, and the callbacks made to subscribed clients.
 */
module Broker {
  import opened Vectors

  /** Which client callback is made: serviceUpdated or serviceRemoved. */
  datatype Kind = Updated | Removed

  /**
   * One callback to a client: the serial number of the connection it went
   * to, which callback, and the key of the record it carried.
   */
  datatype Call = Call(connection: nat, kind: Kind, key: string)

  /** A JmDNS ServiceEvent, reduced to getType(), getName() and getInfo().getKey(). */
  datatype ServiceEvent = ServiceEvent(typeName: string, name: string, key: string)

  /** The messages the JmDNS listeners post to the service's handler. */
  datatype Message =
    | TypeAdded(typeName: string)
    | ServiceAdded(event: ServiceEvent)
    | ServiceRemoved(event: ServiceEvent)
    | ServiceResolved(event: ServiceEvent)

  /**
   * A Srv entry. Its fields are set once, from the event that created it;
   * `id` stands for the object's identity, which Vector.remove and
   * Vector.contains compare.
   */
  datatype Srv = Srv(id: nat, typeName: string, name: string, key: string)

  /** The serviceUpdated calls that replay `srvs`, in order, to one connection. */
  function Updates(connection: nat, srvs: seq<Srv>): (r: seq<Call>)
    ensures |r| == |srvs|
    ensures forall i :: 0 <= i < |srvs| ==> r[i] == Call(connection, Updated, srvs[i].key)
  {
    if srvs == [] then [] else [Call(connection, Updated, srvs[0].key)] + Updates(connection, srvs[1..])
  }

  /** One more step of a loop over `srvs` that calls back for each entry. */
  lemma UpdatesPrefix(connection: nat, srvs: seq<Srv>, i: nat)
    requires i < |srvs|
    ensures Updates(connection, srvs[..i + 1]) == Updates(connection, srvs[..i]) + [Call(connection, Updated, srvs[i].key)]
  {
    var a := Updates(connection, srvs[..i + 1]);
    var b := Updates(connection, srvs[..i]) + [Call(connection, Updated, srvs[i].key)];
    forall k | 0 <= k < |a| ensures a[k] == b[k] {
      assert srvs[..i + 1][k] == srvs[k];
      if k < i {
        assert srvs[..i][k] == srvs[k];
      }
    }
  }

  /** allServices order: each new entry is inserted at the front, so ids fall along the list. */
  ghost predicate NewestFirst(srvs: seq<Srv>) {
    forall i, j :: 0 <= i < j < |srvs| ==> srvs[i].id > srvs[j].id
  }

  /** typeServices order: each new entry is appended, so ids rise along the list. */
  ghost predicate OldestFirst(srvs: seq<Srv>) {
    forall i, j :: 0 <= i < j < |srvs| ==> srvs[i].id < srvs[j].id
  }

  lemma OrderedDistinct(srvs: seq<Srv>)
    requires NewestFirst(srvs) || OldestFirst(srvs)
    ensures Distinct(srvs)
  {
    forall i, j | 0 <= i < j < |srvs| ensures srvs[i] != srvs[j] {
      assert srvs[i].id != srvs[j].id;
    }
  }

  /** Vector.remove keeps allServices newest first. */
  lemma RemoveKeepsNewestFirst(srvs: seq<Srv>, x: Srv)
    requires NewestFirst(srvs)
    ensures NewestFirst(RemoveFirst(srvs, x))
  {
    if x in srvs {
      RemoveFirstAt(srvs, x);
      var r := RemoveFirst(srvs, x);
      forall i, j | 0 <= i < j < |r| ensures r[i].id > r[j].id {
        RemoveFirstShape(srvs, x, i);
        RemoveFirstShape(srvs, x, j);
      }
    }
  }

  /** Vector.remove keeps a bucket oldest first. */
  lemma RemoveKeepsOldestFirst(srvs: seq<Srv>, x: Srv)
    requires OldestFirst(srvs)
    ensures OldestFirst(RemoveFirst(srvs, x))
  {
    if x in srvs {
      RemoveFirstAt(srvs, x);
      var r := RemoveFirst(srvs, x);
      forall i, j | 0 <= i < j < |r| ensures r[i].id < r[j].id {
        RemoveFirstShape(srvs, x, i);
        RemoveFirstShape(srvs, x, j);
      }
    }
  }

  /** The entries of a list, as a set. */
  function Members(srvs: seq<Srv>): (r: set<Srv>)
    ensures forall s :: s in r <==> s in srvs
  {
    set s | s in srvs
  }

  /** The keys of a list of entries. */
  function Keys(srvs: seq<Srv>): (r: set<string>)
    ensures forall s :: s in srvs ==> s.key in r
    ensures forall k :: k in r ==> exists s :: s in srvs && s.key == k
  {
    set s | s in srvs :: s.key
  }

  /**
   * A connection as a notify loop sees it: its serial number and whether it
   * has registered callbacks (callbacks != null).
   */
  datatype Target = Target(connection: nat, hasCallbacks: bool)

  /** No two targets share a serial number. */
  ghost predicate SerialsDistinct(ts: seq<Target>) {
    forall i, j :: 0 <= i < j < |ts| ==> ts[i].connection != ts[j].connection
  }

  /** The callbacks one notify loop makes: each target with callbacks, in order, once. */
  function Deliveries(ts: seq<Target>, kind: Kind, key: string): (r: seq<Call>)
    ensures |r| <= |ts|
  {
    if ts == [] then []
    else
      var t := ts[|ts| - 1];
      Deliveries(ts[..|ts| - 1], kind, key) + (if t.hasCallbacks then [Call(t.connection, kind, key)] else [])
  }

  /** The calls one notify step makes to a single target. */
  function Delivery(t: Target, kind: Kind, key: string): (r: seq<Call>)
    ensures r == Deliveries([t], kind, key)
  {
    assert [t][..0] == [];
    if t.hasCallbacks then [Call(t.connection, kind, key)] else []
  }

  /** One more step of a notify loop over `ts`. */
  lemma DeliveriesPrefix(ts: seq<Target>, i: nat, kind: Kind, key: string)
    requires i < |ts|
    ensures Deliveries(ts[..i + 1], kind, key) == Deliveries(ts[..i], kind, key) + Delivery(ts[i], kind, key)
  {
    assert ts[..i + 1][..i] == ts[..i];
  }

  /** updateSrv / removeSrv: the type's subscribers first, then the all-types subscribers. */
  function FanOut(kind: Kind, key: string, typeTargets: seq<Target>, allTargets: seq<Target>): seq<Call> {
    Deliveries(typeTargets, kind, key) + Deliveries(allTargets, kind, key)
  }

  lemma Concat3(a: seq<Call>, b: seq<Call>, c: seq<Call>)
    ensures a + b + c == a + (b + c)
  {
  }

  /** removeAllSrv: one removal fan-out per entry of `srvs`, in order. */
  function RemoveAllCalls(typeTargets: seq<Target>, allTargets: seq<Target>, srvs: seq<Srv>): seq<Call> {
    if srvs == [] then []
    else RemoveAllCalls(typeTargets, allTargets, srvs[..|srvs| - 1])
         + FanOut(Removed, srvs[|srvs| - 1].key, typeTargets, allTargets)
  }

  lemma RemoveAllCallsStep(typeTargets: seq<Target>, allTargets: seq<Target>, srvs: seq<Srv>, s: Srv)
    ensures RemoveAllCalls(typeTargets, allTargets, srvs + [s])
            == RemoveAllCalls(typeTargets, allTargets, srvs) + FanOut(Removed, s.key, typeTargets, allTargets)
  {
    assert (srvs + [s])[..|srvs|] == srvs;
  }

  lemma RemoveAllCallsPrefix(typeTargets: seq<Target>, allTargets: seq<Target>, srvs: seq<Srv>, i: nat)
    requires i < |srvs|
    ensures RemoveAllCalls(typeTargets, allTargets, srvs[..i + 1])
            == RemoveAllCalls(typeTargets, allTargets, srvs[..i]) + FanOut(Removed, srvs[i].key, typeTargets, allTargets)
  {
    assert srvs[..i + 1][..i] == srvs[..i];
  }

  /**
   * stopDiscovery: removeAllSrv on every bucket, in the order the type table
   * yields them; `bucketTargets` holds each bucket's subscribers.
   */
  function StopCalls(bucketTargets: seq<seq<Target>>, allTargets: seq<Target>, srvs: seq<Srv>): seq<Call> {
    if bucketTargets == [] then []
    else StopCalls(bucketTargets[..|bucketTargets| - 1], allTargets, srvs)
         + RemoveAllCalls(bucketTargets[|bucketTargets| - 1], allTargets, srvs)
  }

  lemma StopCallsStep(bucketTargets: seq<seq<Target>>, ts: seq<Target>, allTargets: seq<Target>, srvs: seq<Srv>)
    ensures StopCalls(bucketTargets + [ts], allTargets, srvs)
            == StopCalls(bucketTargets, allTargets, srvs) + RemoveAllCalls(ts, allTargets, srvs)
  {
    assert (bucketTargets + [ts])[..|bucketTargets|] == bucketTargets;
  }

  /** The serviceUpdated calls a subscribe replays to one target: none when it has no callbacks. */
  function Replay(t: Target, srvs: seq<Srv>): (r: seq<Call>)
    ensures t.hasCallbacks ==> r == Updates(t.connection, srvs)
    ensures !t.hasCallbacks ==> r == []
  {
    if t.hasCallbacks then Updates(t.connection, srvs) else []
  }

  /** One more step of subscribe's replay loop over `srvs`. */
  lemma ReplayPrefix(t: Target, srvs: seq<Srv>, i: nat)
    requires i < |srvs|
    ensures Replay(t, srvs[..i + 1]) == Replay(t, srvs[..i]) + Delivery(t, Updated, srvs[i].key)
  {
    UpdatesPrefix(t.connection, srvs, i);
  }

  /**
   * A notify loop calls a given connection once when it is a target with
   * callbacks, and never otherwise.
   */
  lemma {:induction false} DeliveriesOnce(ts: seq<Target>, n: nat, kind: Kind, key: string)
    requires SerialsDistinct(ts)
    ensures multiset(Deliveries(ts, kind, key))[Call(n, kind, key)] == if Target(n, true) in ts then 1 else 0
  {
    if ts != [] {
      var init, last := ts[..|ts| - 1], ts[|ts| - 1];
      assert ts == init + [last];
      assert SerialsDistinct(init);
      DeliveriesOnce(init, n, kind, key);
      if last.connection == n {
        assert Target(n, true) !in init by {
          forall i | 0 <= i < |init| ensures init[i].connection != n {
            assert ts[i].connection != ts[|ts| - 1].connection;
          }
        }
      }
    }
  }

  /**
   * The broker does not merge its two subscriber lists: a connection with
   * callbacks that is subscribed to the type and to all types is called
   * twice for the same change, and one in neither list is not called.
   */
  lemma FanOutCount(kind: Kind, key: string, typeTargets: seq<Target>, allTargets: seq<Target>, n: nat)
    requires SerialsDistinct(typeTargets) && SerialsDistinct(allTargets)
    ensures multiset(FanOut(kind, key, typeTargets, allTargets))[Call(n, kind, key)]
            == (if Target(n, true) in typeTargets then 1 else 0) + (if Target(n, true) in allTargets then 1 else 0)
  {
    DeliveriesOnce(typeTargets, n, kind, key);
    DeliveriesOnce(allTargets, n, kind, key);
  }

  /**
   * The client side of every connection, as far as the broker can see it:
   * the serviceUpdated / serviceRemoved calls made, in order, and for each
   * of them whether it raised a RemoteException. The exception is
   * caught and logged where the call is made, so it changes nothing else.
   */
  class CallLog {
    var calls: seq<Call>
    /** failed[i]: callback i raised a RemoteException, which the service ignores. */
    var failed: seq<bool>

    constructor ()
      ensures calls == [] && failed == []
    {
      calls := [];
      failed := [];
    }

    /** Every callback made has a known outcome. */
    ghost predicate Valid()
      reads this
    {
      |failed| == |calls|
    }

    /** One remote callback; whether it raises a RemoteException is not known in advance. */
    method Callback(connection: nat, kind: Kind, key: string)
      requires Valid()
      modifies this
      ensures Valid()
      ensures calls == old(calls) + [Call(connection, kind, key)]
      ensures failed[..|old(failed)|] == old(failed)
    {
      calls := calls + [Call(connection, kind, key)];
      var remoteException: bool := *;
      if remoteException {
        failed := failed + [true];
      } else {
        failed := failed + [false];
      }
    }

    /** notifyUpdate / notifyRemove for one connection: no call when it has no callbacks. */
    method Notify(t: Target, kind: Kind, key: string)
      requires Valid()
      modifies this
      ensures Valid()
      ensures calls == old(calls) + Delivery(t, kind, key)
    {
      if t.hasCallbacks {
        Callback(t.connection, kind, key);
      }
    }

    /**
     * notifyUpdate / notifyRemove over an enumeration of connections: a
     * RemoteException from one does not stop delivery to the rest.
     */
    method NotifyEach(ts: seq<Target>, kind: Kind, key: string)
      requires Valid()
      modifies this
      ensures Valid()
      ensures calls == old(calls) + Deliveries(ts, kind, key)
    {
      var i := 0;
      while i < |ts|
        invariant 0 <= i <= |ts| && Valid()
        invariant calls == old(calls) + Deliveries(ts[..i], kind, key)
      {
        DeliveriesPrefix(ts, i, kind, key);
        Notify(ts[i], kind, key);
        i := i + 1;
      }
      assert ts[..i] == ts;
    }

    /** A fan-out: the type's subscribers first, then the all-types subscribers. */
    method FanOutEach(kind: Kind, key: string, typeTargets: seq<Target>, allTargets: seq<Target>)
      requires Valid()
      modifies this
      ensures Valid()
      ensures calls == old(calls) + FanOut(kind, key, typeTargets, allTargets)
    {
      NotifyEach(typeTargets, kind, key);
      NotifyEach(allTargets, kind, key);
      Concat3(old(calls), Deliveries(typeTargets, kind, key), Deliveries(allTargets, kind, key));
    }

    /** removeAllSrv's notifications: one removal fan-out per entry of `srvs`, in order. */
    method RemoveAllEach(typeTargets: seq<Target>, allTargets: seq<Target>, srvs: seq<Srv>)
      requires Valid()
      modifies this
      ensures Valid()
      ensures calls == old(calls) + RemoveAllCalls(typeTargets, allTargets, srvs)
    {
      var i := 0;
      while i < |srvs|
        invariant 0 <= i <= |srvs| && Valid()
        invariant calls == old(calls) + RemoveAllCalls(typeTargets, allTargets, srvs[..i])
      {
        RemoveAllCallsPrefix(typeTargets, allTargets, srvs, i);
        Concat3(old(calls), RemoveAllCalls(typeTargets, allTargets, srvs[..i]), FanOut(Removed, srvs[i].key, typeTargets, allTargets));
        FanOutEach(Removed, srvs[i].key, typeTargets, allTargets);
        i := i + 1;
      }
      assert srvs[..i] == srvs;
    }
  }
}
