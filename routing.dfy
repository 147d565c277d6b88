/**
 * The central's static routing table from relay channel to virtual input
 * device, built once from the devicetree instances, and its lookup
 * `device_get_for_relay_channel`.
 */
module Routing {
  import opened Wrappers
  import opened WireEvent
  import opened InputEvents

  /** One devicetree instance: its `relay-channel` property and its `device` phandle. */
  datatype RelayInstance = RelayInstance(relayChannel: U8, device: Device)

  /** One generated `config_n` entry. */
  datatype RelayConfig = RelayConfig(relayChannel: U8, device: Device)

  /**
   * The table as the configuration macro builds it: entry n takes instance n's
   * device but instance 0's relay channel.
   */
  function RoutingTable(instances: seq<RelayInstance>): (table: seq<RelayConfig>)
    ensures |table| == |instances|
    ensures forall n :: 0 <= n < |table| ==> table[n].device == instances[n].device
    ensures forall n :: 0 <= n < |table| ==> table[n].relayChannel == instances[0].relayChannel
  {
    seq(|instances|, n requires 0 <= n < |instances| => RelayConfig(instances[0].relayChannel, instances[n].device))
  }

  /** The device of the first entry whose channel matches, or NULL when none does. */
  function DeviceForRelayChannel(table: seq<RelayConfig>, relayChannel: U8): (d: Option<Device>)
    ensures d.None? <==> forall n :: 0 <= n < |table| ==> table[n].relayChannel != relayChannel
    ensures d.Some? ==> (exists n :: 0 <= n < |table| && table[n].relayChannel == relayChannel &&
                                     table[n].device == d.value && NoMatchBefore(table, relayChannel, n))
  {
    if table == [] then None
    else if table[0].relayChannel == relayChannel then
      assert NoMatchBefore(table, relayChannel, 0);
      Some(table[0].device)
    else
      var d := DeviceForRelayChannel(table[1..], relayChannel);
      assert d.Some? ==> exists n :: 0 <= n < |table| && table[n].relayChannel == relayChannel &&
                                     table[n].device == d.value && NoMatchBefore(table, relayChannel, n) by {
        if d.Some? {
          var n :| 0 <= n < |table[1..]| && table[1..][n].relayChannel == relayChannel &&
            table[1..][n].device == d.value && NoMatchBefore(table[1..], relayChannel, n);
          assert NoMatchBefore(table, relayChannel, n + 1);
        }
      }
      d
  }

  ghost predicate NoMatchBefore(table: seq<RelayConfig>, relayChannel: U8, n: int)
    requires 0 <= n <= |table|
  {
    forall k :: 0 <= k < n ==> table[k].relayChannel != relayChannel
  }

  /**
   * Because every entry carries instance 0's channel, only that channel is
   * routed and it always reaches instance 0's device; every other channel is
   * dropped, whatever channels the other instances were configured with.
   */
  lemma OnlyFirstInstanceRoutable(instances: seq<RelayInstance>, relayChannel: U8)
    ensures DeviceForRelayChannel(RoutingTable(instances), relayChannel) ==
      if instances != [] && relayChannel == instances[0].relayChannel
      then Some(instances[0].device) else None
  {
    var table := RoutingTable(instances);
    var d := DeviceForRelayChannel(table, relayChannel);
    if d.Some? {
      var n :| 0 <= n < |table| && table[n].relayChannel == relayChannel &&
        table[n].device == d.value && NoMatchBefore(table, relayChannel, n);
      if n > 0 {
        assert table[0].relayChannel == relayChannel;
      }
    }
  }
}
