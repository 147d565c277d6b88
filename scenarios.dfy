/**
 * Runs that combine several callbacks: a full discovery on a fresh central,
 * and one event travelling from a peripheral's input handler to the
 * central's input pipeline.
 */
module RelayScenarios {
  import opened Wrappers
  import opened WireEvent
  import opened Gatt
  import opened InputEvents
  import opened Routing
  import opened Slots
  import opened InputRelayCentral
  import opened InputRelayPeripheral

  /**
   * A peer connects as the first peripheral; the stack reports the relay
   * service, then the input-state characteristic declaration. Discovery
   * searches for the service, then for every characteristic over the same
   * 0x0001..0xffff range, and subscribes exactly once with the reported value
   * handle, after which the characteristic search stops.
   */
  method DiscoveryReachesSubscription(conn: ConnRef, service: Attr, decl: Attr, valueHandle: Handle)
    returns (subscribed: SubscribeParams, requests: seq<GattRequest>)
    requires conn != Null && valueHandle != 0
    requires decl.userData == Some(Chrc(AltInputStateUuid, valueHandle))
    ensures subscribed.valueHandle == valueHandle && subscribed.notify && subscribed.cccValue == CccNotify
    ensures |requests| == 3
    ensures requests[0] == DiscoverRequest(conn, 0, ServiceSearch)
    ensures requests[1] == DiscoverRequest(conn, 0, ServiceSearch.(uuid := None, func := ChrcDiscoveryFunc,
                                                                   discoverType := DiscoverCharacteristic))
    ensures requests[2] == SubscribeRequest(conn, 0, subscribed)
  {
    var central := new Central(2, 4, []);
    central.OnConnected(conn, 0, RoleCentral, 0);
    assert central.peripherals[..][0].conn == conn;
    var r1 := central.ServiceDiscoveryStep(conn, Some(service), 0);
    assert central.peripherals[..][0].conn == conn;
    var r2 := central.ChrcDiscoveryStep(conn, Some(decl), 0);
    assert r2 == Stop;
    subscribed := central.peripherals[0].inputSubscribeParams;
    requests := central.requests;
  }

  /**
   * The peripheral's handler for a device on relay channel 2 sees
   * {sync 1, type 3, code 7, value -5}; the drained notification crosses the
   * link as its bytes; the central routes channel 2 to device `d` and its
   * work reports exactly one relative event (code 7, value -5, sync) on `d`.
   * The event type does not reach the pipeline.
   */
  method OneEventEndToEnd(source: Device, d: Device, stale: seq<Byte>) returns (delivered: seq<RelReport>)
    requires |stale| == RecordSize
    ensures delivered == [RelReport(d, 7, -5, true)]
  {
    var peripheral := new Peripheral(4);
    peripheral.InputEventTriggered(2, InputEvent(source, 1, 3, 7, -5), -EAGAIN);
    peripheral.SendInputStateCallback();
    var sent := peripheral.notified[0];
    assert sent == Record(2, 1, 3, 7, -5);

    var central := new Central(1, 4, [RelayInstance(2, d)]);
    NotifiedRecordDecodes(stale, sent);
    OnlyFirstInstanceRoutable([RelayInstance(2, d)], 2);
    var r := central.InputNotify(0, Some(Encode(sent)), stale);
    central.InputEventWork();
    delivered := central.reports;
  }
}
