/**
 * What a start-discovery attempt learns from the WifiManager, and how the
 * raw IPv4 address it reports is split into the four address bytes.
 */
module Discovery {
  import opened JavaTypes

  /** WifiManager.WIFI_STATE_* as the Android API numbers them. */
  const WIFI_STATE_DISABLING: int := 0
  const WIFI_STATE_DISABLED: int := 1
  const WIFI_STATE_ENABLING: int := 2
  const WIFI_STATE_ENABLED: int := 3
  const WIFI_STATE_UNKNOWN: int := 4

  /**
   * The answers one start attempt gets: the polled wifi state, the raw
   * address of WifiInfo (None when getConnectionInfo() is null), whether
   * getDhcpInfo() is non-null (asked only by the oldest service), and
   * whether JmDNS.create and the listener installation succeed.
   */
  datatype WifiEnv = WifiEnv(wifiState: int, connectionInfo: Option<int32>, dhcpInfo: bool, createOk: bool)

  /** A start attempt that gets as far as a running JmDNS instance. */
  predicate StartSucceeds(env: WifiEnv) {
    env.wifiState == WIFI_STATE_ENABLED && env.connectionInfo.Some? && env.createOk
  }

  /** Reassembles four little-endian octets into a 32-bit unsigned value. */
  function Recombine(b: seq<octet>): (u: int)
    requires |b| == 4
    ensures 0 <= u < 0x1_0000_0000
  {
    b[0] as int + 0x100 * b[1] as int + 0x1_0000 * b[2] as int + 0x100_0000 * b[3] as int
  }

  /**
   * `(byte)(raw >> 8*i & 0xff)` for i = 0..3: an arithmetic shift followed by
   * a mask is a floor division followed by a non-negative remainder, which is
   * what Dafny's `/` and `%` compute for a positive divisor.
   */
  function AddressBytes(raw: int32): (b: seq<octet>)
    ensures |b| == 4
    ensures Recombine(b) == raw as int % 0x1_0000_0000
  {
    var r := raw as int;
    SplitFour(r);
    [(r % 0x100) as octet, (r / 0x100 % 0x100) as octet,
     (r / 0x1_0000 % 0x100) as octet, (r / 0x100_0000 % 0x100) as octet]
  }

  lemma SplitFour(r: int)
    ensures r % 0x100 + 0x100 * (r / 0x100 % 0x100) + 0x1_0000 * (r / 0x1_0000 % 0x100)
            + 0x100_0000 * (r / 0x100_0000 % 0x100) == r % 0x1_0000_0000
  {
    var q1 := r / 0x100;
    var q2 := q1 / 0x100;
    var q3 := q2 / 0x100;
    SplitLow24(r);
    SplitLow16(q1);
    SplitLow8(q2);
    assert q2 == r / 0x1_0000 && q3 == r / 0x100_0000;
  }

  /** The lowest octet of `x` and the rest, as Euclidean division by 256 gives them. */
  lemma SplitLow24(x: int)
    ensures x % 0x1_0000_0000 == x % 0x100 + 0x100 * (x / 0x100 % 0x100_0000)
  {
  }

  lemma SplitLow16(x: int)
    ensures x % 0x100_0000 == x % 0x100 + 0x100 * (x / 0x100 % 0x1_0000)
  {
  }

  lemma SplitLow8(x: int)
    ensures x % 0x1_0000 == x % 0x100 + 0x100 * (x / 0x100 % 0x100)
  {
  }

  /** A Java int's bit pattern as an unsigned value. */
  lemma Unsigned(x: int32)
    ensures x as int % 0x1_0000_0000 == if x >= 0 then x as int else x as int + 0x1_0000_0000
  {
  }

  /** Different raw values (as 32-bit patterns) give different addresses. */
  lemma AddressBytesInjective(x: int32, y: int32)
    requires AddressBytes(x) == AddressBytes(y)
    ensures x == y
  {
    Unsigned(x);
    Unsigned(y);
  }

  /** What a wifi-state change makes the service do. */
  datatype Action = StartAction | StopAction

  /** The action for a polled state: start when wifi is enabled, stop otherwise. */
  function ActionFor(wifiState: int): Action {
    if wifiState == WIFI_STATE_ENABLED then StartAction else StopAction
  }

  /** The state the previous poll saw: `first` before any poll. */
  function LastState(first: int, states: seq<int>): int {
    if states == [] then first else states[|states| - 1]
  }

  /**
   * The actions of the polling loop of `run`: one for every poll whose state
   * differs from the one before it (the first is compared with `first`).
   */
  function EdgeActions(first: int, states: seq<int>): (r: seq<Action>)
    ensures |r| <= |states|
  {
    if states == [] then []
    else
      var init := states[..|states| - 1];
      var cur := states[|states| - 1];
      EdgeActions(first, init) + (if cur != LastState(first, init) then [ActionFor(cur)] else [])
  }

  lemma EdgeActionsStep(first: int, states: seq<int>, cur: int)
    ensures EdgeActions(first, states + [cur])
            == EdgeActions(first, states) + (if cur != LastState(first, states) then [ActionFor(cur)] else [])
    ensures LastState(first, states + [cur]) == cur
  {
    assert (states + [cur])[..|states|] == states;
  }

  /** The loop acts on no poll exactly when every poll sees the state it started from. */
  lemma {:induction false} NoEdgeNoAction(first: int, states: seq<int>)
    ensures EdgeActions(first, states) == [] <==> forall i :: 0 <= i < |states| ==> states[i] == first
  {
    if states != [] {
      var init := states[..|states| - 1];
      NoEdgeNoAction(first, init);
      if forall i :: 0 <= i < |init| ==> init[i] == first {
        assert init != [] ==> LastState(first, init) == init[|init| - 1] == first;
      } else {
        assert EdgeActions(first, init) != [];
        assert !(forall i :: 0 <= i < |states| ==> states[i] == first) by {
          var k :| 0 <= k < |init| && init[k] != first;
          assert states[k] == init[k];
        }
      }
    }
  }

  /** Polling the same state again never acts twice in a row. */
  lemma {:induction false} RepeatedPollNoAction(first: int, states: seq<int>)
    requires states != []
    ensures EdgeActions(first, states + [states[|states| - 1]]) == EdgeActions(first, states)
  {
    EdgeActionsStep(first, states, states[|states| - 1]);
  }

  /** The wifi states a sequence of polls saw. */
  function WifiStates(polls: seq<WifiEnv>): (r: seq<int>)
    ensures |r| == |polls| && forall i :: 0 <= i < |polls| ==> r[i] == polls[i].wifiState
  {
    seq(|polls|, i requires 0 <= i < |polls| => polls[i].wifiState)
  }

  /** A call the polling loop makes: startDiscovery on a poll's answers, or stopDiscovery. */
  datatype DiscoveryCall = StartCall(env: WifiEnv) | StopCall

  /** The call a poll that sees a change makes. */
  function CallFor(env: WifiEnv): DiscoveryCall {
    if env.wifiState == WIFI_STATE_ENABLED then StartCall(env) else StopCall
  }

  function ActionOf(c: DiscoveryCall): Action {
    if c.StartCall? then StartAction else StopAction
  }

  /** The state the previous poll saw: `first` before any poll. */
  function LastPolled(first: int, polls: seq<WifiEnv>): int {
    if polls == [] then first else polls[|polls| - 1].wifiState
  }

  /**
   * The calls of the polling loop of `run`: for every poll whose state
   * differs from the one before it, a start with that poll's answers when
   * wifi is enabled, a stop otherwise.
   */
  function EdgeCalls(first: int, polls: seq<WifiEnv>): (r: seq<DiscoveryCall>)
    ensures |r| <= |polls|
  {
    if polls == [] then []
    else
      var init := polls[..|polls| - 1];
      var cur := polls[|polls| - 1];
      EdgeCalls(first, init) + (if cur.wifiState != LastPolled(first, init) then [CallFor(cur)] else [])
  }

  lemma EdgeCallsStep(first: int, polls: seq<WifiEnv>, cur: WifiEnv)
    ensures EdgeCalls(first, polls + [cur])
            == EdgeCalls(first, polls) + (if cur.wifiState != LastPolled(first, polls) then [CallFor(cur)] else [])
    ensures LastPolled(first, polls + [cur]) == cur.wifiState
  {
    assert (polls + [cur])[..|polls|] == polls;
  }

  /** Read as actions, the calls of the loop are exactly the loop's edge actions. */
  lemma {:induction false} EdgeCallsActions(first: int, polls: seq<WifiEnv>)
    ensures |EdgeCalls(first, polls)| == |EdgeActions(first, WifiStates(polls))|
    ensures forall i :: 0 <= i < |EdgeCalls(first, polls)| ==>
              ActionOf(EdgeCalls(first, polls)[i]) == EdgeActions(first, WifiStates(polls))[i]
    ensures LastPolled(first, polls) == LastState(first, WifiStates(polls))
  {
    if polls != [] {
      var init := polls[..|polls| - 1];
      var cur := polls[|polls| - 1];
      EdgeCallsActions(first, init);
      assert WifiStates(polls) == WifiStates(init) + [cur.wifiState];
      EdgeActionsStep(first, WifiStates(init), cur.wifiState);
    }
  }

  /** Every start the loop makes uses the answers of a poll that saw wifi enabled. */
  lemma {:induction false} EdgeCallsStartOnEnabled(first: int, polls: seq<WifiEnv>)
    ensures forall c :: c in EdgeCalls(first, polls) && c.StartCall? ==>
              c.env in polls && c.env.wifiState == WIFI_STATE_ENABLED
  {
    if polls != [] {
      var init := polls[..|polls| - 1];
      EdgeCallsStartOnEnabled(first, init);
      assert forall e :: e in init ==> e in polls;
    }
  }
}
