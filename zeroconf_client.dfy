/**
 * The client side of the library: the tables that reconcile the records
 * an application registers with the state of its binding to the shared
 * service, the replay of deferred requests once the binding comes up, and
 * the fan-out of the service's notifications to the application's
 * listeners.
 *
 * The three tables and the binding flag form the value `Tables`. Every
 * change is a function on `Tables` (Registered, Unregistered, the replay
 * functions); the methods of `ZeroConfClient` are proved to change their
 * fields exactly as these functions say, and the lemmas of the module
 * state what the functions mean.
 *
 * Each call into the bound service is an `Attempt` in the client's log,
 * with whether it raised a RemoteException; which calls raise one is not
 * known in advance.
 */
module Client {
  import opened JavaTypes
  import opened Vectors
  import Records

  type Record = Records.RecordValue

  /** A call the client makes on the bound service; an unregister may pass the null a missing key yields. */
  datatype Request =
    | RegisterCallbacks
    | SubscribeAll
    | RegisterRecord(record: Record)
    | UnregisterRecord(found: Option<Record>)

  /** One call into the service, and whether it raised a RemoteException. */
  datatype Attempt = Attempt(request: Request, raised: bool)

  /** The messages posted to the client's handler. */
  datatype Note = NoteUpdated(record: Record) | NoteRemoved(record: Record) | NoteConnected | NoteDisconnected

  /** One listener callback, with the serial number of the listener. */
  datatype Delivery =
    | ServiceUpdated(listener: nat, record: Record)
    | ServiceRemoved(listener: nat, record: Record)
    | ConnectedToService(listener: nat)

  /**
   * Whether `service` is bound, the records registered with the service
   * by client key, the records waiting to be registered, and the keys
   * waiting to be unregistered.
   */
  datatype Tables = Tables(
    connected: bool,
    registered: map<string, Record>,
    toRegister: map<string, Record>,
    toUnregister: set<string>)

  /** Every record is held under its own clientKey, as put(record.clientKey, record) stores it. */
  ghost predicate Keyed(m: map<string, Record>) {
    forall k :: k in m ==> m[k].clientKey == k
  }

  ghost predicate TablesValid(t: Tables) {
    Keyed(t.registered) && Keyed(t.toRegister)
  }

  /** A list that names every key of `m` once: one pass of a HashMap iteration. */
  ghost predicate Enumerates<V>(order: seq<string>, m: map<string, V>) {
    Distinct(order) && forall k :: k in order <==> k in m
  }

  /** A list that names every element of `s` once. */
  ghost predicate EnumeratesSet(order: seq<string>, s: set<string>) {
    Distinct(order) && forall k :: k in order <==> k in s
  }

  // ---------------------------------------------------------------------
  // registerService and unregisterService
  // ---------------------------------------------------------------------

  /** Whether registerService calls the service: the key is new and the service is bound. */
  predicate RegisterCalls(t: Tables, rec: Record) {
    rec.clientKey !in t.registered && t.connected
  }

  /** The tables after registerService(rec), where `ok` says whether the service call, if made, raised nothing. */
  function Registered(t: Tables, rec: Record, ok: bool): Tables {
    var k := rec.clientKey;
    if k in t.registered then t
    else if !t.connected then t.(toRegister := t.toRegister[k := rec])
    else if ok then t.(registered := t.registered[k := rec])
    else t
  }

  /** What registerService(rec) returns. */
  function RegisterResult(t: Tables, rec: Record, ok: bool): bool {
    rec.clientKey in t.registered || (t.connected && ok)
  }

  /** Whether unregisterService calls the service: the key is registered and the service is bound. */
  predicate UnregisterCalls(t: Tables, key: string) {
    key in t.registered && t.connected
  }

  /** The tables after unregisterService(key). */
  function Unregistered(t: Tables, key: string, ok: bool): Tables {
    if key !in t.registered then t
    else if !t.connected then t.(toUnregister := t.toUnregister + {key}, toRegister := t.toRegister - {key})
    else if ok then t.(registered := t.registered - {key})
    else t
  }

  /** What unregisterService(key) returns. */
  function UnregisterResult(t: Tables, key: string, ok: bool): bool {
    key in t.registered && t.connected && ok
  }

  /**
   * registerService answers true exactly when the key is registered
   * afterwards; an already registered key keeps its first record.
   */
  lemma RegisterMeaning(t: Tables, rec: Record, ok: bool)
    ensures var t' := Registered(t, rec, ok);
            && (RegisterResult(t, rec, ok) <==> rec.clientKey in t'.registered)
            && (rec.clientKey in t.registered ==> t' == t)
            && (rec.clientKey in t'.registered && rec.clientKey !in t.registered ==> t'.registered[rec.clientKey] == rec)
            && t'.toUnregister == t.toUnregister && t'.connected == t.connected
  {
  }

  /** While the service is not bound, registerService only queues the record and answers false. */
  lemma RegisterDeferred(t: Tables, rec: Record, ok: bool)
    requires !t.connected && rec.clientKey !in t.registered
    ensures var t' := Registered(t, rec, ok);
            && !RegisterResult(t, rec, ok)
            && t'.toRegister == t.toRegister[rec.clientKey := rec]
            && t'.registered == t.registered && t'.toUnregister == t.toUnregister
  {
  }

  /** Registering the same record twice in a row, with the same outcome, changes no more than registering it once. */
  lemma RegisterIdempotent(t: Tables, rec: Record, ok: bool)
    ensures Registered(Registered(t, rec, ok), rec, ok) == Registered(t, rec, ok)
  {
    var t' := Registered(t, rec, ok);
    if rec.clientKey !in t.registered && !t.connected {
      assert t'.toRegister[rec.clientKey := rec] == t'.toRegister;
    }
  }

  /**
   * unregisterService answers true exactly when the key was registered
   * and no longer is; a key that is only queued for registration is
   * neither unregistered nor dequeued.
   */
  lemma UnregisterMeaning(t: Tables, key: string, ok: bool)
    ensures var t' := Unregistered(t, key, ok);
            && (UnregisterResult(t, key, ok) <==> key in t.registered && key !in t'.registered)
            && (key !in t.registered ==> t' == t && !UnregisterResult(t, key, ok))
            && (key in t.registered && !t.connected ==> key in t'.toUnregister && key !in t'.toRegister && t'.registered == t.registered)
  {
  }

  lemma RegisteredKeeps(t: Tables, rec: Record, ok: bool)
    requires TablesValid(t)
    ensures TablesValid(Registered(t, rec, ok))
  {
  }

  lemma UnregisteredKeeps(t: Tables, key: string, ok: bool)
    requires TablesValid(t)
    ensures TablesValid(Unregistered(t, key, ok))
  {
  }

  // ---------------------------------------------------------------------
  // The replay on connection
  // ---------------------------------------------------------------------

  /** One replayed register: on success the record moves from the queue into the registered table. */
  function RegisterStep(t: Tables, k: string, ok: bool): Tables {
    if ok && k in t.toRegister then
      t.(toRegister := t.toRegister - {k}, registered := t.registered[k := t.toRegister[k]])
    else t
  }

  /** The replayed registers of the keys of `order`, in order, with outcomes `oks`. */
  function RegisterReplay(t: Tables, order: seq<string>, oks: seq<bool>): Tables
    requires |oks| == |order|
    decreases |order|
  {
    if order == [] then t
    else
      var i := |order| - 1;
      RegisterStep(RegisterReplay(t, order[..i], oks[..i]), order[i], oks[i])
  }

  /** The service calls of the register replay: each queued record, in order. */
  function RegisterRequests(m: map<string, Record>, order: seq<string>, oks: seq<bool>): (r: seq<Attempt>)
    requires |oks| == |order| && forall k :: k in order ==> k in m
    ensures |r| == |order|
    ensures forall i :: 0 <= i < |order| ==> r[i] == Attempt(RegisterRecord(m[order[i]]), !oks[i])
    decreases |order|
  {
    if order == [] then []
    else
      var i := |order| - 1;
      RegisterRequests(m, order[..i], oks[..i]) + [Attempt(RegisterRecord(m[order[i]]), !oks[i])]
  }

  /** The replay of a list extended by one entry is one more step. */
  lemma RegisterReplayExtend(t: Tables, order: seq<string>, oks: seq<bool>, k: string, ok: bool)
    requires |oks| == |order|
    ensures RegisterReplay(t, order + [k], oks + [ok]) == RegisterStep(RegisterReplay(t, order, oks), k, ok)
  {
    assert (order + [k])[..|order|] == order && (oks + [ok])[..|oks|] == oks;
  }

  lemma RegisterRequestsExtend(m: map<string, Record>, order: seq<string>, oks: seq<bool>, k: string, ok: bool)
    requires |oks| == |order| && (forall j :: j in order ==> j in m) && k in m
    ensures RegisterRequests(m, order + [k], oks + [ok]) == RegisterRequests(m, order, oks) + [Attempt(RegisterRecord(m[k]), !ok)]
  {
    assert (order + [k])[..|order|] == order && (oks + [ok])[..|oks|] == oks;
  }

  lemma UnregisterRequestsExtend(m: map<string, Record>, order: seq<string>, oks: seq<bool>, k: string, ok: bool)
    requires |oks| == |order|
    ensures UnregisterRequests(m, order + [k], oks + [ok]) == UnregisterRequests(m, order, oks) + [Attempt(UnregisterRecord(Lookup(m, k)), !ok)]
  {
    assert (order + [k])[..|order|] == order && (oks + [ok])[..|oks|] == oks;
  }

  /** One replayed unregister as written: on success the key leaves the queue, and it stays registered. */
  function UnregisterStep(t: Tables, k: string, ok: bool): Tables {
    if ok then t.(toUnregister := t.toUnregister - {k}) else t
  }

  function UnregisterReplay(t: Tables, order: seq<string>, oks: seq<bool>): Tables
    requires |oks| == |order|
    decreases |order|
  {
    if order == [] then t
    else
      var i := |order| - 1;
      UnregisterStep(UnregisterReplay(t, order[..i], oks[..i]), order[i], oks[i])
  }

  lemma UnregisterReplayExtend(t: Tables, order: seq<string>, oks: seq<bool>, k: string, ok: bool)
    requires |oks| == |order|
    ensures UnregisterReplay(t, order + [k], oks + [ok]) == UnregisterStep(UnregisterReplay(t, order, oks), k, ok)
  {
    assert (order + [k])[..|order|] == order && (oks + [ok])[..|oks|] == oks;
  }

  /** One replayed unregister as intended: on success the key also leaves the registered table. */
  function FixedUnregisterStep(t: Tables, k: string, ok: bool): Tables {
    if ok then t.(toUnregister := t.toUnregister - {k}, registered := t.registered - {k}) else t
  }

  function FixedUnregisterReplay(t: Tables, order: seq<string>, oks: seq<bool>): Tables
    requires |oks| == |order|
    decreases |order|
  {
    if order == [] then t
    else
      var i := |order| - 1;
      FixedUnregisterStep(FixedUnregisterReplay(t, order[..i], oks[..i]), order[i], oks[i])
  }

  lemma FixedUnregisterReplayExtend(t: Tables, order: seq<string>, oks: seq<bool>, k: string, ok: bool)
    requires |oks| == |order|
    ensures FixedUnregisterReplay(t, order + [k], oks + [ok]) == FixedUnregisterStep(FixedUnregisterReplay(t, order, oks), k, ok)
  {
    assert (order + [k])[..|order|] == order && (oks + [ok])[..|oks|] == oks;
  }

  /** The record a replayed unregister passes: registeredRecords.get(key), null for a missing key. */
  function Lookup(m: map<string, Record>, k: string): Option<Record> {
    if k in m then Some(m[k]) else None
  }

  /** The service calls of the unregister replay, each passing the registered record of its key. */
  function UnregisterRequests(m: map<string, Record>, order: seq<string>, oks: seq<bool>): (r: seq<Attempt>)
    requires |oks| == |order|
    ensures |r| == |order|
    ensures forall i :: 0 <= i < |order| ==> r[i] == Attempt(UnregisterRecord(Lookup(m, order[i])), !oks[i])
    decreases |order|
  {
    if order == [] then []
    else
      var i := |order| - 1;
      UnregisterRequests(m, order[..i], oks[..i]) + [Attempt(UnregisterRecord(Lookup(m, order[i])), !oks[i])]
  }

  /**
   * Where the first successful call of a replay loop falls, or the number
   * of outcomes when none succeeds.
   */
  function FirstOk(oks: seq<bool>): (r: nat)
    ensures r <= |oks| && (r < |oks| ==> oks[r])
    ensures forall i :: 0 <= i < r ==> !oks[i]
  {
    if oks == [] then 0 else if oks[0] then 0 else 1 + FirstOk(oks[1..])
  }

  /**
   * How many entries a replay loop as written handles: the iteration goes
   * on past failures, and the call after the first success, which finds
   * the table changed under it, throws a ConcurrentModificationException.
   */
  function LoopCalls(oks: seq<bool>): (r: nat)
    ensures r <= |oks|
  {
    if FirstOk(oks) < |oks| then FirstOk(oks) + 1 else |oks|
  }

  /** Whether such a loop stops with that exception: entries remain after the one that succeeded. */
  predicate LoopThrows(oks: seq<bool>) {
    LoopCalls(oks) < |oks|
  }

  /** A replay loop as written throws exactly when a call other than the last one succeeds. */
  lemma LoopThrowsIff(oks: seq<bool>)
    ensures LoopThrows(oks) <==> exists i :: 0 <= i < |oks| - 1 && oks[i]
    ensures !LoopThrows(oks) ==> LoopCalls(oks) == |oks|
  {
    if exists i :: 0 <= i < |oks| - 1 && oks[i] {
      var i :| 0 <= i < |oks| - 1 && oks[i];
      assert FirstOk(oks) <= i;
    }
  }

  /** The keys of `order` whose call succeeded. */
  function Succeeded(order: seq<string>, oks: seq<bool>): (r: set<string>)
    requires |oks| == |order|
    ensures forall k :: k in r <==> exists i :: 0 <= i < |order| && order[i] == k && oks[i]
  {
    set i | 0 <= i < |order| && oks[i] :: order[i]
  }

  /** The records of `m` under the keys of `s`. */
  function Restrict(m: map<string, Record>, s: set<string>): (r: map<string, Record>)
    ensures r.Keys == m.Keys * s && forall k :: k in r ==> r[k] == m[k]
  {
    map k | k in m && k in s :: m[k]
  }

  lemma SucceededStep(order: seq<string>, oks: seq<bool>)
    requires |oks| == |order| && order != []
    ensures var i := |order| - 1;
            Succeeded(order, oks) == Succeeded(order[..i], oks[..i]) + (if oks[i] then {order[i]} else {})
  {
    var i := |order| - 1;
    assert forall j :: 0 <= j < i ==> order[..i][j] == order[j] && oks[..i][j] == oks[j];
  }

  /**
   * The register replay moves exactly the records whose call succeeded:
   * they leave the queue and join the registered table with the queued
   * record; every other entry of either table stays as it was.
   */
  lemma {:induction false} RegisterReplayMoves(t: Tables, order: seq<string>, oks: seq<bool>)
    requires |oks| == |order| && Distinct(order)
    requires forall k :: k in order ==> k in t.toRegister
    ensures MovedBy(t, RegisterReplay(t, order, oks), Succeeded(order, oks))
  {
    if order == [] {
      assert Succeeded(order, oks) == {};
      assert t.toRegister - {} == t.toRegister;
      assert t.registered + Restrict(t.toRegister, {}) == t.registered;
    } else {
      var i := |order| - 1;
      var o, b := order[..i], oks[..i];
      assert forall j :: 0 <= j < i ==> o[j] == order[j];
      assert Distinct(o) && order[i] !in o;
      RegisterReplayMoves(t, o, b);
      SucceededStep(order, oks);
      RegisterMovesStep(t, RegisterReplay(t, o, b), Succeeded(o, b), order[i], oks[i]);
    }
  }

  /** `r` is `t` with the queued records under the keys of `s` moved into the registered table. */
  ghost predicate MovedBy(t: Tables, r: Tables, s: set<string>) {
    && r.connected == t.connected && r.toUnregister == t.toUnregister
    && r.toRegister == t.toRegister - s
    && r.registered == t.registered + Restrict(t.toRegister, s)
  }

  lemma RegisterMovesStep(t: Tables, prev: Tables, s: set<string>, k: string, ok: bool)
    requires k !in s && k in t.toRegister && MovedBy(t, prev, s)
    ensures MovedBy(t, RegisterStep(prev, k, ok), s + (if ok then {k} else {}))
  {
    if ok {
      RestrictGrows(t.registered, t.toRegister, s, k);
      assert prev.toRegister - {k} == t.toRegister - (s + {k});
    } else {
      assert s + {} == s;
    }
  }

  lemma RestrictGrows(r: map<string, Record>, m: map<string, Record>, s: set<string>, k: string)
    requires k in m
    ensures (r + Restrict(m, s))[k := m[k]] == r + Restrict(m, s + {k})
  {
  }

  /** The unregister replay as written dequeues the keys whose call succeeded and never touches the registered table. */
  lemma {:induction false} UnregisterReplayKeepsRegistered(t: Tables, order: seq<string>, oks: seq<bool>)
    requires |oks| == |order|
    ensures UnregisterReplay(t, order, oks) == t.(toUnregister := t.toUnregister - Succeeded(order, oks))
  {
    if order != [] {
      var i := |order| - 1;
      UnregisterReplayKeepsRegistered(t, order[..i], oks[..i]);
      SucceededStep(order, oks);
    }
  }

  /** The unregister replay as intended removes each successfully unregistered key from both tables. */
  lemma {:induction false} FixedUnregisterReplayRemoves(t: Tables, order: seq<string>, oks: seq<bool>)
    requires |oks| == |order|
    ensures var s := Succeeded(order, oks);
            FixedUnregisterReplay(t, order, oks)
              == t.(toUnregister := t.toUnregister - s, registered := t.registered - s)
  {
    if order != [] {
      var i := |order| - 1;
      FixedUnregisterReplayRemoves(t, order[..i], oks[..i]);
      SucceededStep(order, oks);
    }
  }

  lemma {:induction false} RegisterReplayKeeps(t: Tables, order: seq<string>, oks: seq<bool>)
    requires |oks| == |order| && TablesValid(t)
    ensures TablesValid(RegisterReplay(t, order, oks))
  {
    if order != [] {
      var i := |order| - 1;
      RegisterReplayKeeps(t, order[..i], oks[..i]);
    }
  }

  /**
   * A record registered while the service was not bound is registered
   * once the binding comes up and its replayed call succeeds.
   */
  lemma DeferredRegisterCompletes(t: Tables, rec: Record, ok: bool, order: seq<string>, oks: seq<bool>, i: nat)
    requires !t.connected && rec.clientKey !in t.registered
    requires Enumerates(order, Registered(t, rec, ok).toRegister) && |oks| == |order|
    requires i < |order| && order[i] == rec.clientKey && oks[i]
    ensures var r := RegisterReplay(Registered(t, rec, ok).(connected := true), order, oks);
            rec.clientKey in r.registered && r.registered[rec.clientKey] == rec && rec.clientKey !in r.toRegister
  {
    var t' := Registered(t, rec, ok).(connected := true);
    RegisterReplayMoves(t', order, oks);
    assert rec.clientKey in Succeeded(order, oks);
  }

  /**
   * Once a replayed unregister succeeds its key is still registered, so a
   * later registerService of that key answers true without calling the
   * service, and the service no longer announces the record it was told
   * to drop.
   */
  lemma ReplayedUnregisterLeavesKey(rec: Record, ok: bool)
    ensures var t := Tables(true, map[rec.clientKey := rec], map[], {rec.clientKey});
            var r := UnregisterReplay(t, [rec.clientKey], [true]);
            && rec.clientKey !in r.toUnregister && rec.clientKey in r.registered
            && !RegisterCalls(r, rec) && RegisterResult(r, rec, ok)
  {
    var t := Tables(true, map[rec.clientKey := rec], map[], {rec.clientKey});
    assert [rec.clientKey][..0] == [];
    assert UnregisterReplay(t, [rec.clientKey], [true]) == UnregisterStep(t, rec.clientKey, true);
  }

  /** The intended replay leaves the key unregistered, so registering it again calls the service. */
  lemma FixedReplayedUnregisterDropsKey(rec: Record, ok: bool)
    ensures var t := Tables(true, map[rec.clientKey := rec], map[], {rec.clientKey});
            var r := FixedUnregisterReplay(t, [rec.clientKey], [true]);
            && rec.clientKey !in r.toUnregister && rec.clientKey !in r.registered
            && RegisterCalls(r, rec) && RegisterResult(r, rec, ok) == ok
  {
    var t := Tables(true, map[rec.clientKey := rec], map[], {rec.clientKey});
    assert [rec.clientKey][..0] == [];
    assert FixedUnregisterReplay(t, [rec.clientKey], [true]) == FixedUnregisterStep(t, rec.clientKey, true);
  }

  /**
   * Two queued records whose first replayed call succeeds: the loop as
   * written throws before the second record is tried.
   */
  lemma SecondPendingNeverTried()
    ensures LoopCalls([true, true]) == 1 && LoopThrows([true, true])
    ensures LoopCalls([true, false]) == 1 && LoopThrows([true, false])
  {
    assert FirstOk([true, true]) == 0 && FirstOk([true, false]) == 0;
  }

  /** Some list of the elements of `s`, each once: an iteration order nobody chose. */
  ghost function Listing(s: set<string>): (r: seq<string>)
    ensures EnumeratesSet(r, s) && |r| == |s|
    decreases |s|
  {
    if s == {} then []
    else
      var k :| k in s;
      var rest := Listing(s - {k});
      DistinctPrepend(rest, k);
      [k] + rest
  }

  lemma DistinctConcat(a: seq<string>, b: seq<string>)
    requires Distinct(a) && Distinct(b) && forall k :: k in a ==> k !in b
    ensures Distinct(a + b)
  {
    var c := a + b;
    forall i, j | 0 <= i < j < |c| ensures c[i] != c[j] {
      if j >= |a| && i < |a| {
        assert c[i] in a && c[j] == b[j - |a|];
      }
    }
  }

  /** `n` failed outcomes. */
  function Falses(n: nat): (r: seq<bool>)
    ensures |r| == n && forall i :: 0 <= i < n ==> !r[i]
  {
    seq(n, _ => false)
  }

  /**
   * Outcomes that all fail except perhaps the last, padded with failures
   * only after a success: a loop as written handles exactly the unpadded
   * entries.
   */
  lemma PaddedCalls(oks: seq<bool>, n: nat)
    requires forall i :: 0 <= i < |oks| && oks[i] ==> i == |oks| - 1
    requires n > 0 ==> |oks| > 0 && oks[|oks| - 1]
    ensures LoopCalls(oks + Falses(n)) == |oks|
    ensures (oks + Falses(n))[..|oks|] == oks
  {
    var x := oks + Falses(n);
    assert forall i :: 0 <= i < |oks| ==> x[i] == oks[i];
    if |oks| > 0 && oks[|oks| - 1] {
      assert x[|oks| - 1];
      assert FirstOk(x) == |oks| - 1;
    } else {
      assert x == oks;
    }
  }

  /** The calls that open onServiceConnected: registerCallbacks, then subscribeAll unless the first raised. */
  function OpeningCalls(callbacksOk: bool, subscribeOk: bool): seq<Attempt> {
    [Attempt(RegisterCallbacks, !callbacksOk)] + (if callbacksOk then [Attempt(SubscribeAll, !subscribeOk)] else [])
  }

  /**
   * After a connection with the intended replay the tables are
   * reconciled: the records whose register succeeded have left the queue
   * for the registered table, and the keys whose unregister succeeded have
   * left both the queue and the registered table; what failed stays queued.
   */
  lemma ConnectionReconciles(t: Tables, rOrder: seq<string>, rOks: seq<bool>, uOrder: seq<string>, uOks: seq<bool>)
    requires Enumerates(rOrder, t.toRegister) && |rOks| == |rOrder|
    requires |uOks| == |uOrder|
    ensures var sr, su := Succeeded(rOrder, rOks), Succeeded(uOrder, uOks);
            var r := FixedUnregisterReplay(RegisterReplay(t.(connected := true), rOrder, rOks), uOrder, uOks);
            && r.connected
            && r.toRegister == t.toRegister - sr
            && r.toUnregister == t.toUnregister - su
            && r.registered == (t.registered + Restrict(t.toRegister, sr)) - su
  {
    var t1 := RegisterReplay(t.(connected := true), rOrder, rOks);
    RegisterReplayMoves(t.(connected := true), rOrder, rOks);
    FixedUnregisterReplayRemoves(t1, uOrder, uOks);
  }

  /** When every replayed call succeeds, both queues are empty after the connection. */
  lemma ConnectionDrainsQueues(t: Tables, rOrder: seq<string>, rOks: seq<bool>, uOrder: seq<string>, uOks: seq<bool>)
    requires Enumerates(rOrder, t.toRegister) && |rOks| == |rOrder|
    requires EnumeratesSet(uOrder, t.toUnregister) && |uOks| == |uOrder|
    requires (forall i :: 0 <= i < |rOks| ==> rOks[i]) && (forall i :: 0 <= i < |uOks| ==> uOks[i])
    ensures var r := FixedUnregisterReplay(RegisterReplay(t.(connected := true), rOrder, rOks), uOrder, uOks);
            r.toRegister == map[] && r.toUnregister == {}
  {
    ConnectionReconciles(t, rOrder, rOks, uOrder, uOks);
    assert forall k :: k in t.toRegister ==> k in Succeeded(rOrder, rOks) by {
      forall k | k in t.toRegister ensures k in Succeeded(rOrder, rOks) {
        var i :| 0 <= i < |rOrder| && rOrder[i] == k;
      }
    }
    assert forall k :: k in t.toUnregister ==> k in Succeeded(uOrder, uOks) by {
      forall k | k in t.toUnregister ensures k in Succeeded(uOrder, uOks) {
        var i :| 0 <= i < |uOrder| && uOrder[i] == k;
      }
    }
  }

  // ---------------------------------------------------------------------
  // Listener fan-out
  // ---------------------------------------------------------------------

  /** The listener calls handleMessage makes for `note`: one per listener in registration order; none for NOTIFY_DISCONNECTED. */
  function FanOut(listeners: seq<nat>, note: Note): (r: seq<Delivery>)
    decreases |listeners|
  {
    if listeners == [] then []
    else
      var i := |listeners| - 1;
      var l := listeners[i];
      FanOut(listeners[..i], note) +
        match note
        case NoteUpdated(rec) => [ServiceUpdated(l, rec)]
        case NoteRemoved(rec) => [ServiceRemoved(l, rec)]
        case NoteConnected => [ConnectedToService(l)]
        case NoteDisconnected => []
  }

  /** The callback one listener receives for `note`, if any. */
  function DeliveryTo(l: nat, note: Note): Option<Delivery> {
    match note
    case NoteUpdated(rec) => Some(ServiceUpdated(l, rec))
    case NoteRemoved(rec) => Some(ServiceRemoved(l, rec))
    case NoteConnected => Some(ConnectedToService(l))
    case NoteDisconnected => None
  }

  /** Every listener, in registration order, gets the note's callback once; a disconnection reaches nobody. */
  lemma {:induction false} FanOutReachesAll(listeners: seq<nat>, note: Note)
    ensures note.NoteDisconnected? ==> FanOut(listeners, note) == []
    ensures !note.NoteDisconnected? ==>
              |FanOut(listeners, note)| == |listeners|
              && forall i :: 0 <= i < |listeners| ==> Some(FanOut(listeners, note)[i]) == DeliveryTo(listeners[i], note)
  {
    if listeners != [] {
      var i := |listeners| - 1;
      FanOutReachesAll(listeners[..i], note);
    }
  }

  /** Registering a listener that was not registered and unregistering it again restores the list. */
  lemma ListenerRoundTrip(listeners: seq<nat>, l: nat)
    requires l !in listeners
    ensures RemoveFirst(listeners + [l], l) == listeners
  {
    RemoveFirstAfter(listeners, l, []);
    assert listeners + [l] + [] == listeners + [l];
  }

  /**
   * Where the register replay as written stands: from `t0` and the call
   * log `c0`, it has reached the keys of `order` with outcomes `oks`, only
   * the last of which may have succeeded, and `left` are the keys not yet
   * reached.
   */
  ghost predicate RegisterProgress(t0: Tables, t: Tables, c0: seq<Attempt>, c: seq<Attempt>,
                                   left: set<string>, moved: bool, order: seq<string>, oks: seq<bool>) {
    && left <= t0.toRegister.Keys && |oks| == |order| && Distinct(order)
    && (forall k :: k in order <==> k in t0.toRegister && k !in left)
    && (forall i :: 0 <= i < |oks| && oks[i] ==> i == |oks| - 1)
    && (moved <==> (|oks| > 0 && oks[|oks| - 1]))
    && t == RegisterReplay(t0, order, oks)
    && c == c0 + RegisterRequests(t0.toRegister, order, oks)
    && (!moved ==> t.toRegister == t0.toRegister)
    && TablesValid(t)
  }

  lemma RegisterProgressStep(t0: Tables, t: Tables, c0: seq<Attempt>, c: seq<Attempt>, left: set<string>,
                             order: seq<string>, oks: seq<bool>, k: string, ok: bool, t': Tables, c': seq<Attempt>)
    requires RegisterProgress(t0, t, c0, c, left, false, order, oks) && k in left
    requires t' == RegisterStep(t, k, ok) && c' == c + [Attempt(RegisterRecord(t.toRegister[k]), !ok)] && TablesValid(t')
    ensures RegisterProgress(t0, t', c0, c', left - {k}, ok, order + [k], oks + [ok])
  {
    RegisterReplayExtend(t0, order, oks, k, ok);
    RegisterRequestsExtend(t0.toRegister, order, oks, k, ok);
    DistinctAppend(order, k);
  }

  /** Where the unregister replay as written stands, in the same terms. */
  ghost predicate UnregisterProgress(t0: Tables, t: Tables, c0: seq<Attempt>, c: seq<Attempt>,
                                     left: set<string>, moved: bool, order: seq<string>, oks: seq<bool>) {
    && left <= t0.toUnregister && |oks| == |order| && Distinct(order)
    && (forall k :: k in order <==> k in t0.toUnregister && k !in left)
    && (forall i :: 0 <= i < |oks| && oks[i] ==> i == |oks| - 1)
    && (moved <==> (|oks| > 0 && oks[|oks| - 1]))
    && t == UnregisterReplay(t0, order, oks)
    && c == c0 + UnregisterRequests(t0.registered, order, oks)
    && TablesValid(t)
  }

  lemma UnregisterProgressStep(t0: Tables, t: Tables, c0: seq<Attempt>, c: seq<Attempt>, left: set<string>,
                               order: seq<string>, oks: seq<bool>, k: string, ok: bool, t': Tables, c': seq<Attempt>)
    requires UnregisterProgress(t0, t, c0, c, left, false, order, oks) && k in left
    requires t' == UnregisterStep(t, k, ok) && c' == c + [Attempt(UnregisterRecord(Lookup(t.registered, k)), !ok)] && TablesValid(t')
    ensures UnregisterProgress(t0, t', c0, c', left - {k}, ok, order + [k], oks + [ok])
  {
    UnregisterReplayKeepsRegistered(t0, order, oks);
    UnregisterReplayExtend(t0, order, oks, k, ok);
    UnregisterRequestsExtend(t0.registered, order, oks, k, ok);
    DistinctAppend(order, k);
  }

  /** Where the register replay over a snapshot of the queue stands: it goes on after a success. */
  ghost predicate FixedRegisterProgress(t0: Tables, t: Tables, c0: seq<Attempt>, c: seq<Attempt>,
                                        left: set<string>, order: seq<string>, oks: seq<bool>) {
    && left <= t0.toRegister.Keys && |oks| == |order| && Distinct(order)
    && (forall k :: k in order <==> k in t0.toRegister && k !in left)
    && t == RegisterReplay(t0, order, oks)
    && c == c0 + RegisterRequests(t0.toRegister, order, oks)
    && (forall k :: k in left ==> k in t.toRegister && t.toRegister[k] == t0.toRegister[k])
    && TablesValid(t)
  }

  lemma FixedRegisterProgressStep(t0: Tables, t: Tables, c0: seq<Attempt>, c: seq<Attempt>, left: set<string>,
                                  order: seq<string>, oks: seq<bool>, k: string, ok: bool, t': Tables, c': seq<Attempt>)
    requires FixedRegisterProgress(t0, t, c0, c, left, order, oks) && k in left
    requires t' == RegisterStep(t, k, ok) && c' == c + [Attempt(RegisterRecord(t.toRegister[k]), !ok)] && TablesValid(t')
    ensures FixedRegisterProgress(t0, t', c0, c', left - {k}, order + [k], oks + [ok])
  {
    RegisterReplayExtend(t0, order, oks, k, ok);
    RegisterRequestsExtend(t0.toRegister, order, oks, k, ok);
    DistinctAppend(order, k);
  }

  /** Where the unregister replay over a snapshot of the queue stands. */
  ghost predicate FixedUnregisterProgress(t0: Tables, t: Tables, c0: seq<Attempt>, c: seq<Attempt>,
                                          left: set<string>, order: seq<string>, oks: seq<bool>) {
    && left <= t0.toUnregister && |oks| == |order| && Distinct(order)
    && (forall k :: k in order <==> k in t0.toUnregister && k !in left)
    && t == FixedUnregisterReplay(t0, order, oks)
    && c == c0 + UnregisterRequests(t0.registered, order, oks)
    && TablesValid(t)
  }

  lemma FixedUnregisterProgressStep(t0: Tables, t: Tables, c0: seq<Attempt>, c: seq<Attempt>, left: set<string>,
                                    order: seq<string>, oks: seq<bool>, k: string, ok: bool, t': Tables, c': seq<Attempt>)
    requires FixedUnregisterProgress(t0, t, c0, c, left, order, oks) && k in left
    requires t' == FixedUnregisterStep(t, k, ok) && c' == c + [Attempt(UnregisterRecord(Lookup(t.registered, k)), !ok)] && TablesValid(t')
    ensures FixedUnregisterProgress(t0, t', c0, c', left - {k}, order + [k], oks + [ok])
  {
    FixedUnregisterReplayRemoves(t0, order, oks);
    assert k !in Succeeded(order, oks);
    assert Lookup(t.registered, k) == Lookup(t0.registered, k);
    FixedUnregisterReplayExtend(t0, order, oks, k, ok);
    UnregisterRequestsExtend(t0.registered, order, oks, k, ok);
    DistinctAppend(order, k);
  }

  // ---------------------------------------------------------------------
  // The client object
  // ---------------------------------------------------------------------

  class ZeroConfClient {
    var connected: bool
    var registered: map<string, Record>
    var toRegister: map<string, Record>
    var toUnregister: set<string>
    /** The listeners, by serial number, in registration order (a Vector: duplicates allowed). */
    var listeners: seq<nat>
    /** Every call made into the bound service, in order. */
    var calls: seq<Attempt>
    /** Every message posted to the handler, in order. */
    var posted: seq<Note>
    /** Every listener callback the handler made, in order. */
    var delivered: seq<Delivery>

    function Snapshot(): Tables
      reads this
    {
      Tables(connected, registered, toRegister, toUnregister)
    }

    ghost predicate Valid()
      reads this
    {
      TablesValid(Snapshot())
    }

    /** Empty tables, no binding and no listeners. */
    constructor ()
      ensures Valid() && Snapshot() == Tables(false, map[], map[], {})
      ensures listeners == [] && calls == [] && posted == [] && delivered == []
    {
      connected, registered, toRegister, toUnregister := false, map[], map[], {};
      listeners, calls, posted, delivered := [], [], [], [];
    }

    /** One call into the bound service; whether it raises a RemoteException is not known in advance. */
    method Call(request: Request) returns (ok: bool)
      modifies this`calls
      ensures calls == old(calls) + [Attempt(request, !ok)]
    {
      var raised: bool := *;
      calls := calls + [Attempt(request, raised)];
      ok := !raised;
    }

    /** registerService: `ok` is the outcome of the service call, when one is made. */
    method RegisterService(rec: Record) returns (r: bool, ghost ok: bool)
      requires Valid()
      modifies this
      ensures Valid()
      ensures Snapshot() == Registered(old(Snapshot()), rec, ok) && r == RegisterResult(old(Snapshot()), rec, ok)
      ensures calls == old(calls) + (if RegisterCalls(old(Snapshot()), rec) then [Attempt(RegisterRecord(rec), !ok)] else [])
      ensures listeners == old(listeners) && posted == old(posted) && delivered == old(delivered)
    {
      ok := true;
      if rec.clientKey in registered {
        return true, ok;
      }
      if !connected {
        toRegister := toRegister[rec.clientKey := rec];
        // toBeUnregistered.remove(record) passes a record to a set of keys: it removes nothing.
        return false, ok;
      }
      r := Call(RegisterRecord(rec));
      ok := r;
      if r {
        registered := registered[rec.clientKey := rec];
      }
    }

    /** unregisterService: `ok` is the outcome of the service call, when one is made. */
    method UnregisterService(key: string) returns (r: bool, ghost ok: bool)
      requires Valid()
      modifies this
      ensures Valid()
      ensures Snapshot() == Unregistered(old(Snapshot()), key, ok) && r == UnregisterResult(old(Snapshot()), key, ok)
      ensures calls == old(calls) + (if UnregisterCalls(old(Snapshot()), key) then [Attempt(UnregisterRecord(Some(old(registered)[key])), !ok)] else [])
      ensures listeners == old(listeners) && posted == old(posted) && delivered == old(delivered)
    {
      ok := true;
      if key !in registered {
        return false, ok;
      }
      var rec := registered[key];
      if !connected {
        toUnregister := toUnregister + {key};
        toRegister := toRegister - {key};
        return false, ok;
      }
      r := Call(UnregisterRecord(Some(rec)));
      ok := r;
      if r {
        registered := registered - {key};
      }
    }

    /** isServiceRegistered: whether the key is in the registered table. */
    method IsServiceRegistered(key: string) returns (r: bool)
      ensures r <==> key in registered
    {
      r := key in registered;
    }

    /** registerListener: Vector.add. */
    method RegisterListener(l: nat)
      modifies this`listeners
      ensures listeners == old(listeners) + [l]
    {
      listeners := listeners + [l];
    }

    /** unregisterListener: Vector.remove drops the first occurrence. */
    method UnregisterListener(l: nat)
      modifies this`listeners
      ensures listeners == RemoveFirst(old(listeners), l)
    {
      listeners := RemoveFirst(listeners, l);
    }

    /** The serviceUpdated callback of the service: the record is posted to the handler. */
    method ServiceUpdatedCallback(rec: Record)
      modifies this`posted
      ensures posted == old(posted) + [NoteUpdated(rec)]
    {
      posted := posted + [NoteUpdated(rec)];
    }

    /** The serviceRemoved callback of the service. */
    method ServiceRemovedCallback(rec: Record)
      modifies this`posted
      ensures posted == old(posted) + [NoteRemoved(rec)]
    {
      posted := posted + [NoteRemoved(rec)];
    }

    /** handleMessage: the listeners in registration order, each called once for the message's kind. */
    method HandleMessage(note: Note)
      modifies this`delivered
      ensures delivered == old(delivered) + FanOut(listeners, note)
    {
      var i := 0;
      while i < |listeners|
        invariant 0 <= i <= |listeners|
        invariant delivered == old(delivered) + FanOut(listeners[..i], note)
      {
        var l := listeners[i];
        assert listeners[..i + 1][..i] == listeners[..i];
        match note {
          case NoteUpdated(rec) => delivered := delivered + [ServiceUpdated(l, rec)];
          case NoteRemoved(rec) => delivered := delivered + [ServiceRemoved(l, rec)];
          case NoteConnected => delivered := delivered + [ConnectedToService(l)];
          case NoteDisconnected =>
        }
        i := i + 1;
      }
      assert listeners[..i] == listeners;
    }

    /** onServiceDisconnected: the binding is gone and NOTIFY_DISCONNECTED is posted; the tables stay. */
    method OnServiceDisconnected()
      modifies this`connected, this`posted
      ensures Snapshot() == old(Snapshot()).(connected := false)
      ensures posted == old(posted) + [NoteDisconnected]
    {
      connected := false;
      posted := posted + [NoteDisconnected];
    }

    /** disconnectFromService: unbinding, and `service` cleared; the tables stay. */
    method DisconnectFromService()
      modifies this`connected
      ensures Snapshot() == old(Snapshot()).(connected := false)
    {
      connected := false;
    }

    /** One replayed register: the queued record is passed to the service and moves on success. */
    method ReplayRegister(k: string) returns (ok: bool)
      requires Valid() && k in toRegister
      modifies this`registered, this`toRegister, this`calls
      ensures Valid()
      ensures Snapshot() == RegisterStep(old(Snapshot()), k, ok)
      ensures calls == old(calls) + [Attempt(RegisterRecord(old(toRegister)[k]), !ok)]
    {
      var rec := toRegister[k];
      ok := Call(RegisterRecord(rec));
      if ok {
        toRegister := toRegister - {k};
        registered := registered[k := rec];
      }
    }

    /**
     * The register replay as written: the queued records in the map's
     * iteration order `order`, each passed to the service; a success moves
     * the record, after which the iteration throws if entries remain.
     * `oks` holds each entry's outcome, up to the last entry handled.
     */
    method ReplayRegisters() returns (thrown: bool, ghost order: seq<string>, ghost oks: seq<bool>)
      requires Valid()
      modifies this`registered, this`toRegister, this`calls
      ensures Valid()
      ensures Enumerates(order, old(toRegister)) && |oks| == |order|
      ensures thrown == LoopThrows(oks)
      ensures var n := LoopCalls(oks);
              && Snapshot() == RegisterReplay(old(Snapshot()), order[..n], oks[..n])
              && calls == old(calls) + RegisterRequests(old(toRegister), order[..n], oks[..n])
    {
      var left, moved;
      left, moved, order, oks := RegisterUntilMoved();
      thrown := moved && left != {};
      // the entries the iteration never reached: no call, and a failed outcome as padding
      ghost var rest := Listing(left);
      PaddedCalls(oks, |rest|);
      assert (order + rest)[..|order|] == order;
      DistinctConcat(order, rest);
      order, oks := order + rest, oks + Falses(|rest|);
    }

    /**
     * The iteration of the register replay up to its first success: the
     * keys it reached, in order, with their outcomes, and the keys left.
     */
    method RegisterUntilMoved() returns (left: set<string>, moved: bool, ghost order: seq<string>, ghost oks: seq<bool>)
      requires Valid()
      modifies this`registered, this`toRegister, this`calls
      ensures RegisterProgress(old(Snapshot()), Snapshot(), old(calls), calls, left, moved, order, oks)
      ensures !moved ==> left == {}
    {
      ghost var t0 := Snapshot();
      left := toRegister.Keys;
      order, oks := [], [];
      moved := false;
      while left != {} && !moved
        invariant RegisterProgress(t0, Snapshot(), old(calls), calls, left, moved, order, oks)
        decreases |left|
      {
        var k :| k in left;
        assert k in toRegister && Valid();
        ghost var t, c := Snapshot(), calls;
        var ok := ReplayRegister(k);
        RegisterProgressStep(t0, t, old(calls), c, left, order, oks, k, ok, Snapshot(), calls);
        left, order, oks, moved := left - {k}, order + [k], oks + [ok], ok;
      }
    }

    /** One replayed unregister as written: the registered record of the key is passed, and the key leaves the queue on success. */
    method ReplayUnregister(k: string) returns (ok: bool)
      requires Valid()
      modifies this`toUnregister, this`calls
      ensures Valid()
      ensures Snapshot() == UnregisterStep(old(Snapshot()), k, ok)
      ensures calls == old(calls) + [Attempt(UnregisterRecord(Lookup(old(registered), k)), !ok)]
    {
      var found := if k in registered then Some(registered[k]) else None;
      ok := Call(UnregisterRecord(found));
      if ok {
        toUnregister := toUnregister - {k};
      }
    }

    /**
     * The unregister replay as written, over the queued keys in the set's
     * iteration order, stopping like the register replay; `oks` is padded
     * with failures for the keys never reached.
     */
    method ReplayUnregisters() returns (thrown: bool, ghost order: seq<string>, ghost oks: seq<bool>)
      requires Valid()
      modifies this`toUnregister, this`calls
      ensures Valid()
      ensures EnumeratesSet(order, old(toUnregister)) && |oks| == |order|
      ensures thrown == LoopThrows(oks)
      ensures var n := LoopCalls(oks);
              && Snapshot() == UnregisterReplay(old(Snapshot()), order[..n], oks[..n])
              && calls == old(calls) + UnregisterRequests(old(registered), order[..n], oks[..n])
    {
      var left, moved;
      left, moved, order, oks := UnregisterUntilMoved();
      thrown := moved && left != {};
      ghost var rest := Listing(left);
      PaddedCalls(oks, |rest|);
      assert (order + rest)[..|order|] == order;
      DistinctConcat(order, rest);
      order, oks := order + rest, oks + Falses(|rest|);
    }

    method UnregisterUntilMoved() returns (left: set<string>, moved: bool, ghost order: seq<string>, ghost oks: seq<bool>)
      requires Valid()
      modifies this`toUnregister, this`calls
      ensures UnregisterProgress(old(Snapshot()), Snapshot(), old(calls), calls, left, moved, order, oks)
      ensures !moved ==> left == {}
    {
      ghost var t0 := Snapshot();
      left := toUnregister;
      order, oks := [], [];
      moved := false;
      while left != {} && !moved
        invariant UnregisterProgress(t0, Snapshot(), old(calls), calls, left, moved, order, oks)
        decreases |left|
      {
        var k :| k in left;
        assert Valid();
        ghost var t, c := Snapshot(), calls;
        var ok := ReplayUnregister(k);
        UnregisterProgressStep(t0, t, old(calls), c, left, order, oks, k, ok, Snapshot(), calls);
        left, order, oks, moved := left - {k}, order + [k], oks + [ok], ok;
      }
    }

    /**
     * The register replay as intended: over a snapshot of the queue, so
     * that every queued record is tried whatever the outcomes.
     */
    method FixedReplayRegisters() returns (ghost order: seq<string>, ghost oks: seq<bool>)
      requires Valid()
      modifies this`registered, this`toRegister, this`calls
      ensures Valid()
      ensures Enumerates(order, old(toRegister)) && |oks| == |order|
      ensures Snapshot() == RegisterReplay(old(Snapshot()), order, oks)
      ensures calls == old(calls) + RegisterRequests(old(toRegister), order, oks)
    {
      ghost var t0 := Snapshot();
      var left := toRegister.Keys;
      order, oks := [], [];
      while left != {}
        invariant FixedRegisterProgress(t0, Snapshot(), old(calls), calls, left, order, oks)
        decreases |left|
      {
        var k :| k in left;
        assert k in toRegister && Valid();
        ghost var t, c := Snapshot(), calls;
        var ok := ReplayRegister(k);
        FixedRegisterProgressStep(t0, t, old(calls), c, left, order, oks, k, ok, Snapshot(), calls);
        left, order, oks := left - {k}, order + [k], oks + [ok];
      }
    }

    /** One replayed unregister as intended: on success the key leaves both the queue and the registered table. */
    method FixedReplayUnregister(k: string) returns (ok: bool)
      requires Valid()
      modifies this`toUnregister, this`registered, this`calls
      ensures Valid()
      ensures Snapshot() == FixedUnregisterStep(old(Snapshot()), k, ok)
      ensures calls == old(calls) + [Attempt(UnregisterRecord(Lookup(old(registered), k)), !ok)]
    {
      var found := if k in registered then Some(registered[k]) else None;
      ok := Call(UnregisterRecord(found));
      if ok {
        toUnregister := toUnregister - {k};
        registered := registered - {k};
      }
    }

    /** The unregister replay as intended, over a snapshot of the queue. */
    method FixedReplayUnregisters() returns (ghost order: seq<string>, ghost oks: seq<bool>)
      requires Valid()
      modifies this`registered, this`toUnregister, this`calls
      ensures Valid()
      ensures EnumeratesSet(order, old(toUnregister)) && |oks| == |order|
      ensures Snapshot() == FixedUnregisterReplay(old(Snapshot()), order, oks)
      ensures calls == old(calls) + UnregisterRequests(old(registered), order, oks)
    {
      ghost var t0 := Snapshot();
      var left := toUnregister;
      order, oks := [], [];
      while left != {}
        invariant FixedUnregisterProgress(t0, Snapshot(), old(calls), calls, left, order, oks)
        decreases |left|
      {
        var k :| k in left;
        assert Valid();
        ghost var t, c := Snapshot(), calls;
        var ok := FixedReplayUnregister(k);
        FixedUnregisterProgressStep(t0, t, old(calls), c, left, order, oks, k, ok, Snapshot(), calls);
        left, order, oks := left - {k}, order + [k], oks + [ok];
      }
    }

    /** The opening of onServiceConnected: the binding is set, then registerCallbacks and subscribeAll. */
    method Subscribe() returns (ghost callbacksOk: bool, ghost subscribeOk: bool)
      modifies this`connected, this`calls
      ensures Snapshot() == old(Snapshot()).(connected := true)
      ensures calls == old(calls) + OpeningCalls(callbacksOk, subscribeOk)
    {
      connected := true;
      var cb := Call(RegisterCallbacks);
      callbacksOk, subscribeOk := cb, true;
      if cb {
        var sub := Call(SubscribeAll);
        subscribeOk := sub;
      }
    }

    /**
     * onServiceConnected as written: the opening calls, the register
     * replay, then, unless it threw, the unregister replay, then, unless
     * that threw, NOTIFY_CONNECTED. `thrown` says whether a
     * ConcurrentModificationException escaped.
     */
    method OnServiceConnected() returns (thrown: bool, ghost callbacksOk: bool, ghost subscribeOk: bool,
                                         ghost rOrder: seq<string>, ghost rOks: seq<bool>,
                                         ghost uOrder: seq<string>, ghost uOks: seq<bool>)
      requires Valid()
      modifies this
      ensures Valid() && connected
      ensures Enumerates(rOrder, old(toRegister)) && |rOks| == |rOrder|
      ensures var n := LoopCalls(rOks);
              var t1 := RegisterReplay(old(Snapshot()).(connected := true), rOrder[..n], rOks[..n]);
              var c1 := old(calls) + OpeningCalls(callbacksOk, subscribeOk) + RegisterRequests(old(toRegister), rOrder[..n], rOks[..n]);
              if LoopThrows(rOks) then thrown && Snapshot() == t1 && calls == c1
              else
                && EnumeratesSet(uOrder, old(toUnregister)) && |uOks| == |uOrder| && thrown == LoopThrows(uOks)
                && var m := LoopCalls(uOks);
                   && Snapshot() == UnregisterReplay(t1, uOrder[..m], uOks[..m])
                   && calls == c1 + UnregisterRequests(t1.registered, uOrder[..m], uOks[..m])
      ensures posted == old(posted) + (if thrown then [] else [NoteConnected])
      ensures listeners == old(listeners) && delivered == old(delivered)
    {
      callbacksOk, subscribeOk := Subscribe();
      thrown, rOrder, rOks := ReplayRegisters();
      uOrder, uOks := [], [];
      if !thrown {
        thrown, uOrder, uOks := ReplayUnregisters();
      }
      if !thrown {
        posted := posted + [NoteConnected];
      }
    }

    /**
     * onServiceConnected as intended: both replays iterate over a snapshot
     * of their queue, and a successful unregister also drops the key from
     * the registered table; NOTIFY_CONNECTED is always posted.
     */
    method OnServiceConnectedFixed() returns (ghost callbacksOk: bool, ghost subscribeOk: bool,
                                              ghost rOrder: seq<string>, ghost rOks: seq<bool>,
                                              ghost uOrder: seq<string>, ghost uOks: seq<bool>)
      requires Valid()
      modifies this
      ensures Valid() && connected
      ensures Enumerates(rOrder, old(toRegister)) && |rOks| == |rOrder|
      ensures EnumeratesSet(uOrder, old(toUnregister)) && |uOks| == |uOrder|
      ensures var t1 := RegisterReplay(old(Snapshot()).(connected := true), rOrder, rOks);
              && Snapshot() == FixedUnregisterReplay(t1, uOrder, uOks)
              && calls == old(calls) + OpeningCalls(callbacksOk, subscribeOk) + RegisterRequests(old(toRegister), rOrder, rOks)
                          + UnregisterRequests(t1.registered, uOrder, uOks)
      ensures posted == old(posted) + [NoteConnected]
      ensures listeners == old(listeners) && delivered == old(delivered)
    {
      callbacksOk, subscribeOk := Subscribe();
      rOrder, rOks := FixedReplayRegisters();
      uOrder, uOks := FixedReplayUnregisters();
      posted := posted + [NoteConnected];
    }
  }
}
