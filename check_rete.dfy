/** The Ethernet watchdog: poll the interface state and, when the link goes down
    after having been up, configure the static fallback address. */
module CheckRete {

  /** The watched interface. */
  const Interface: string := "eth0"

  /** The part of `psutil.net_if_stats()`'s per-interface record that is read. */
  datatype InterfaceStats = InterfaceStats(isUp: bool)

  /** verifica_connessione_ethernet: the interface exists and is up. */
  function EthernetConnected(stats: map<string, InterfaceStats>): (r: bool)
    ensures r ==> Interface in stats
  {
    Interface in stats && stats[Interface].isUp
  }

  /** A missing interface counts as disconnected; a present one reports its flag. */
  lemma EthernetConnectedSpec(stats: map<string, InterfaceStats>)
    ensures Interface !in stats ==> !EthernetConnected(stats)
    ensures Interface in stats ==> EthernetConnected(stats) == stats[Interface].isUp
  {
  }

  /** Only the watched interface matters: adding, changing or removing any other
      interface's entry leaves the answer unchanged. */
  lemma EthernetConnectedOnlyWatchesInterface(stats: map<string, InterfaceStats>, name: string,
                                             entry: InterfaceStats)
    requires name != Interface
    ensures EthernetConnected(stats[name := entry]) == EthernetConnected(stats)
    ensures EthernetConnected(stats - {name}) == EthernetConnected(stats)
  {
  }

  /** The observation of each poll. */
  function Observations(polls: seq<map<string, InterfaceStats>>): (obs: seq<bool>)
    ensures |obs| == |polls|
  {
    seq(|polls|, i requires 0 <= i < |polls| => EthernetConnected(polls[i]))
  }

  /** The state before iteration `i`: the initial observation, then the previous poll's. */
  function StateBefore(initial: bool, obs: seq<bool>, i: nat): bool
    requires i <= |obs|
  {
    if i == 0 then initial else obs[i - 1]
  }

  /** The iterations at which the static address is configured: link down now, up before. */
  function StaticIpCalls(initial: bool, obs: seq<bool>): (r: seq<nat>)
    ensures forall k :: 0 <= k < |r| ==> r[k] < |obs|
  {
    if obs == [] then []
    else
      var n := |obs| - 1;
      StaticIpCalls(initial, obs[..n]) + (if !obs[n] && StateBefore(initial, obs, n) then [n] else [])
  }

  /** The iterations at which the link comes back (only a message is printed). */
  function Reconnections(initial: bool, obs: seq<bool>): (r: seq<nat>)
    ensures forall k :: 0 <= k < |r| ==> r[k] < |obs|
  {
    if obs == [] then []
    else
      var n := |obs| - 1;
      Reconnections(initial, obs[..n]) + (if obs[n] && !StateBefore(initial, obs, n) then [n] else [])
  }

  /** main: the first observation sets the state, then each poll updates it; the
      endless loop runs here over a finite sequence of polls. Returns the final
      state and the iterations at which imposta_ip_statico ran. */
  method Monitor(initialStats: map<string, InterfaceStats>, polls: seq<map<string, InterfaceStats>>)
    returns (ethernetActive: bool, staticIpCalls: seq<nat>)
    ensures ethernetActive == StateBefore(EthernetConnected(initialStats), Observations(polls), |polls|)
    ensures staticIpCalls == StaticIpCalls(EthernetConnected(initialStats), Observations(polls))
  {
    ghost var initial := EthernetConnected(initialStats);
    ghost var obs := Observations(polls);
    ethernetActive := EthernetConnected(initialStats);
    staticIpCalls := [];
    for i := 0 to |polls|
      invariant ethernetActive == StateBefore(initial, obs, i)
      invariant staticIpCalls == StaticIpCalls(initial, obs[..i])
    {
      assert obs[..i + 1][..i] == obs[..i];
      var connesso := EthernetConnected(polls[i]);
      if !connesso && ethernetActive {
        staticIpCalls := staticIpCalls + [i];
        ethernetActive := false;
      } else if connesso && !ethernetActive {
        ethernetActive := true;
      }
    }
    assert obs[..|polls|] == obs;
  }

  /** A call happens at iteration `i` exactly on an up-to-down transition there. */
  lemma {:induction false} StaticIpCallsExactly(initial: bool, obs: seq<bool>, i: int)
    ensures i in StaticIpCalls(initial, obs) <==>
            0 <= i < |obs| && !obs[i] && StateBefore(initial, obs, i)
  {
    if obs != [] {
      var n := |obs| - 1;
      StaticIpCallsExactly(initial, obs[..n], i);
      if 0 <= i < n {
        assert StateBefore(initial, obs[..n], i) == StateBefore(initial, obs, i);
      }
    }
  }

  /** A reconnection at iteration `i` is exactly a down-to-up transition there; it
      sets the state to up and does not configure the static address. */
  lemma {:induction false} ReconnectionsExactly(initial: bool, obs: seq<bool>, i: int)
    ensures i in Reconnections(initial, obs) <==>
            0 <= i < |obs| && obs[i] && !StateBefore(initial, obs, i)
    ensures i in Reconnections(initial, obs) ==> StateBefore(initial, obs, i + 1)
    ensures i in Reconnections(initial, obs) ==> i !in StaticIpCalls(initial, obs)
  {
    StaticIpCallsExactly(initial, obs, i);
    if obs != [] {
      var n := |obs| - 1;
      ReconnectionsExactly(initial, obs[..n], i);
      if 0 <= i < n {
        assert StateBefore(initial, obs[..n], i) == StateBefore(initial, obs, i);
      }
    }
  }

  /** Calls are listed in strictly increasing iteration order. */
  lemma {:induction false} StaticIpCallsIncreasing(initial: bool, obs: seq<bool>)
    ensures forall a, b :: 0 <= a < b < |StaticIpCalls(initial, obs)| ==>
              StaticIpCalls(initial, obs)[a] < StaticIpCalls(initial, obs)[b]
  {
    if obs != [] {
      StaticIpCallsIncreasing(initial, obs[..|obs| - 1]);
    }
  }

  /** Between two static-address configurations the link has come back up. */
  lemma ReconnectBetweenCalls(initial: bool, obs: seq<bool>, i: nat, j: nat)
    requires i in StaticIpCalls(initial, obs) && j in StaticIpCalls(initial, obs) && i < j
    ensures exists k :: i < k < j && obs[k]
  {
  }

  /** Downs and ups alternate: the configurations and the reconnections differ by the
      change between the initial and the final state. */
  lemma {:induction false} TransitionsBalance(initial: bool, obs: seq<bool>)
    ensures |StaticIpCalls(initial, obs)| + (if StateBefore(initial, obs, |obs|) then 1 else 0) ==
            |Reconnections(initial, obs)| + (if initial then 1 else 0)
  {
    if obs != [] {
      var n := |obs| - 1;
      TransitionsBalance(initial, obs[..n]);
      assert StateBefore(initial, obs[..n], n) == StateBefore(initial, obs, n);
    }
  }

  /** A link that stays as it started never triggers the fallback. */
  lemma {:induction false} SteadyLinkNoCalls(initial: bool, obs: seq<bool>)
    requires forall k :: 0 <= k < |obs| ==> obs[k] == initial
    ensures StaticIpCalls(initial, obs) == []
  {
    if obs != [] {
      SteadyLinkNoCalls(initial, obs[..|obs| - 1]);
    }
  }
}
