/**
 * The central half of the input relay: the slot pool held in place, the
 * connection callbacks, the discovery callbacks that locate the relay service
 * and subscribe to its input-state characteristic, and the inbound path that
 * decodes notifications, routes them to a virtual device, queues them without
 * blocking and drains the queue into the input pipeline.
 *
 * Calls into the Bluetooth stack are recorded in `requests` instead of being
 * performed; calls into the input pipeline are recorded in `reports`;
 * `k_work_submit` is counted in `workSubmits` and the deferred work runs when
 * `InputEventWork` is called.
 */
module InputRelayCentral {
  import opened Wrappers
  import opened WireEvent
  import opened Gatt
  import opened InputEvents
  import opened Routing
  import opened Slots

  /**
   * The decode buffer after `memcpy(&evt, data, MIN(length, sizeof(evt)))`:
   * the bytes the payload supplies, then whatever the uninitialised stack
   * buffer held before (`stale`).
   */
  function CopyPayload(stale: seq<Byte>, data: seq<Byte>): (buf: seq<Byte>)
    requires |stale| == RecordSize
    ensures |buf| == RecordSize
    ensures forall i :: 0 <= i < RecordSize && i < |data| ==> buf[i] == data[i]
    ensures forall i :: |data| <= i < RecordSize ==> buf[i] == stale[i]
  {
    if |data| >= RecordSize then data[..RecordSize] else data + stale[|data|..]
  }

  /**
   * A field is determined by the payload once all its bytes were delivered:
   * the channel needs 1 byte, sync 2, type 3, code 5 and the value the whole
   * 9; a full payload decodes the same whatever the buffer held.
   */
  lemma PayloadFixesDeliveredFields(stale1: seq<Byte>, stale2: seq<Byte>, data: seq<Byte>)
    requires |stale1| == |stale2| == RecordSize
    ensures var r1, r2 := Decode(CopyPayload(stale1, data)), Decode(CopyPayload(stale2, data));
      (|data| >= 1 ==> r1.relayChannel == r2.relayChannel) &&
      (|data| >= 2 ==> r1.sync == r2.sync) &&
      (|data| >= 3 ==> r1.eventType == r2.eventType) &&
      (|data| >= 5 ==> r1.code == r2.code) &&
      (|data| >= RecordSize ==> r1 == r2 == Decode(data[..RecordSize]))
  {
    var b1, b2 := CopyPayload(stale1, data), CopyPayload(stale2, data);
    FieldLayout(b1, b2);
    if |data| >= 5 {
      assert b1[3..5] == b2[3..5];
    }
    if |data| >= RecordSize {
      assert b1 == b2 == data[..RecordSize];
    }
  }

  /**
   * The converse: a field any of whose bytes the payload does not supply is
   * left to the stale buffer. Two buffers that differ only in what the stack
   * held before (all 0x00 and all 0xff) decode to different values of it; in
   * particular every payload shorter than the record leaves the value stale.
   */
  lemma ShortPayloadValueIsStale(data: seq<Byte>)
    requires |data| < RecordSize
    ensures var r1, r2 := Decode(CopyPayload(seq(RecordSize, _ => 0), data)),
                          Decode(CopyPayload(seq(RecordSize, _ => 0xff), data));
      (|data| < 1 ==> r1.relayChannel != r2.relayChannel) &&
      (|data| < 2 ==> r1.sync != r2.sync) &&
      (|data| < 3 ==> r1.eventType != r2.eventType) &&
      (|data| < 5 ==> r1.code != r2.code) &&
      r1.value != r2.value
  {
    var b1 := CopyPayload(seq(RecordSize, _ => 0), data);
    var b2 := CopyPayload(seq(RecordSize, _ => 0xff), data);
    FieldLayout(b1, b2);
    if |data| < 5 {
      assert b1[4] != b2[4];
      assert b1[3..5][1] != b2[3..5][1];
    }
    assert b1[8] != b2[8];
    assert b1[5..9][3] != b2[5..9][3];
  }

  /** The bytes a peripheral notifies for a record decode back to that record. */
  lemma NotifiedRecordDecodes(stale: seq<Byte>, r: Record)
    requires |stale| == RecordSize
    ensures Decode(CopyPayload(stale, Encode(r))) == r
  {
    assert CopyPayload(stale, Encode(r)) == Encode(r);
    DecodeEncode(r);
  }

  class Central {
    /** `peripherals[ZMK_SPLIT_BLE_PERIPHERAL_COUNT]`. */
    const peripherals: array<Slot>
    /** CONFIG_ZMK_SPLIT_BLE_CENTRAL_POSITION_QUEUE_SIZE. */
    const inboundCapacity: nat
    /** The `config_n` entries, in instance order. */
    const routes: seq<RelayConfig>
    /** `peripheral_input_event_msgq`, oldest first. */
    var inbound: seq<InputEvent>
    /** How often `peripheral_input_event_work` was submitted. */
    var workSubmits: nat
    /** Every bt_gatt_discover and bt_gatt_subscribe call, in order. */
    var requests: seq<GattRequest>
    /** Every input_report_rel call, in order. */
    var reports: seq<RelReport>

    ghost predicate Valid()
      reads this, peripherals
    {
      |inbound| <= inboundCapacity && PoolInvariant(peripherals[..])
    }

    /** The state at boot: a zeroed pool, an empty queue and the routing table built from the instances. */
    constructor (count: nat, queueSize: nat, instances: seq<RelayInstance>)
      ensures Valid() && fresh(peripherals)
      ensures peripherals.Length == count
      ensures forall i :: 0 <= i < count ==> peripherals[i] == EmptySlot
      ensures inboundCapacity == queueSize && routes == RoutingTable(instances)
      ensures inbound == [] && workSubmits == 0 && requests == [] && reports == []
    {
      peripherals := new Slot[count](_ => EmptySlot);
      inboundCapacity := queueSize;
      routes := RoutingTable(instances);
      inbound := [];
      workSubmits := 0;
      requests := [];
      reports := [];
    }

    /** `release_alt_peripheral_slot`, in place. */
    method ReleaseSlot(index: int) returns (rc: int)
      requires Valid()
      modifies peripherals
      ensures Valid()
      ensures rc == Release(old(peripherals[..]), index).rc
      ensures peripherals[..] == Release(old(peripherals[..]), index).slots
    {
      if index < 0 || index >= peripherals.Length {
        return -EINVAL;
      }
      if peripherals[index].state == Open {
        return -EINVAL;
      }
      ReleasePreservesInvariant(peripherals[..], index);
      if peripherals[index].conn != Null {
        peripherals[index] := peripherals[index].(conn := Null);
      }
      peripherals[index] := peripherals[index].(state := Open);
      peripherals[index] := peripherals[index].(
        subscribeParams := peripherals[index].subscribeParams.(valueHandle := 0));
      rc := 0;
    }

    /**
     * `reserve_alt_peripheral_slot_for_conn`; `addrIndex` is what the
     * persistent address-to-index map answered for the peer's address.
     */
    method ReserveSlotForConn(conn: ConnRef, addrIndex: int) returns (rc: int)
      requires Valid() && conn != Null && addrIndex < peripherals.Length
      modifies peripherals
      ensures Valid()
      ensures rc == Reserve(old(peripherals[..]), conn, addrIndex).rc
      ensures peripherals[..] == Reserve(old(peripherals[..]), conn, addrIndex).slots
    {
      ReservePreservesInvariant(peripherals[..], conn, addrIndex);
      if addrIndex >= 0 {
        if peripherals[addrIndex].state == Open {
          var ignored := ReleaseSlot(addrIndex);
          peripherals[addrIndex] := peripherals[addrIndex].(conn := conn);
          peripherals[addrIndex] := peripherals[addrIndex].(state := Connected);
          return addrIndex;
        }
      }
      return -ENOMEM;
    }

    /** `release_alt_peripheral_slot_for_conn`. */
    method ReleaseSlotForConn(conn: ConnRef) returns (rc: int)
      requires Valid()
      modifies peripherals
      ensures Valid()
      ensures rc == ReleaseForConn(old(peripherals[..]), conn).rc
      ensures peripherals[..] == ReleaseForConn(old(peripherals[..]), conn).slots
    {
      var idx := SlotIndexForConn(peripherals[..], conn);
      if idx < 0 {
        return idx;
      }
      rc := ReleaseSlot(idx);
    }

    /**
     * `split_central_process_connection`: the slot holding `conn` gets its
     * discover parameters set to a primary-service search for the relay
     * service over 0x0001..0xffff, and that search is requested. The guard on
     * `subscribe_params.value_handle` always passes, since that handle is
     * never anything but 0.
     */
    method ProcessConnection(conn: ConnRef)
      requires Valid()
      modifies peripherals, this`requests
      ensures Valid()
      ensures var idx := SlotIndexForConn(old(peripherals[..]), conn);
        idx < 0 ==> peripherals[..] == old(peripherals[..]) && requests == old(requests)
      ensures var idx := SlotIndexForConn(old(peripherals[..]), conn);
        idx >= 0 ==>
          peripherals[..] == old(peripherals[..])[idx := old(peripherals[idx]).(discoverParams := ServiceSearch)] &&
          requests == old(requests) + [DiscoverRequest(conn, idx, ServiceSearch)]
    {
      var idx := SlotIndexForConn(peripherals[..], conn);
      if idx < 0 {
        return;
      }
      assert SlotInvariant(peripherals[idx]);
      if peripherals[idx].subscribeParams.valueHandle == 0 {
        peripherals[idx] := peripherals[idx].(discoverParams := peripherals[idx].discoverParams.(
          uuid := Some(AltServiceUuid),
          func := ServiceDiscoveryFunc,
          startHandle := 0x0001,
          endHandle := 0xffff,
          discoverType := DiscoverPrimary));
        requests := requests + [DiscoverRequest(peripherals[idx].conn, idx, peripherals[idx].discoverParams)];
      }
    }

    /**
     * `split_central_connected`. A connection on which this device is not the
     * central is ignored; a failed connection releases the slot holding it;
     * otherwise a slot is reserved and, only if that succeeds, discovery starts
     * in the lowest slot holding `conn` (the reserved one unless `conn` was
     * already held by a lower slot).
     */
    method OnConnected(conn: ConnRef, connErr: U8, role: Role, addrIndex: int)
      requires Valid() && conn != Null && addrIndex < peripherals.Length
      modifies peripherals, this`requests
      ensures Valid()
      ensures role != RoleCentral ==> peripherals[..] == old(peripherals[..]) && requests == old(requests)
      ensures role == RoleCentral && connErr != 0 ==>
        peripherals[..] == ReleaseForConn(old(peripherals[..]), conn).slots && requests == old(requests)
      ensures role == RoleCentral && connErr == 0 && Reserve(old(peripherals[..]), conn, addrIndex).rc < 0 ==>
        peripherals[..] == old(peripherals[..]) && requests == old(requests)
      ensures role == RoleCentral && connErr == 0 && Reserve(old(peripherals[..]), conn, addrIndex).rc >= 0 ==>
        var bound := Reserve(old(peripherals[..]), conn, addrIndex).slots;
        var idx := SlotIndexForConn(bound, conn);
        0 <= idx <= addrIndex &&
        (SlotIndexForConn(old(peripherals[..]), conn) < 0 ==> idx == addrIndex) &&
        peripherals[..] == bound[idx := bound[idx].(discoverParams := ServiceSearch)] &&
        requests == old(requests) + [DiscoverRequest(conn, idx, ServiceSearch)]
    {
      if role != RoleCentral {
        return;
      }
      if connErr != 0 {
        var ignored := ReleaseSlotForConn(conn);
        return;
      }
      var slotIdx := ReserveSlotForConn(conn, addrIndex);
      if slotIdx < 0 {
        return;
      }
      assert peripherals[..][addrIndex].conn == conn;
      ProcessConnection(conn);
    }

    /** `split_central_disconnected`: release the slot holding `conn`; the reason is only logged. */
    method OnDisconnected(conn: ConnRef, reason: U8)
      requires Valid()
      modifies peripherals
      ensures Valid()
      ensures peripherals[..] == ReleaseForConn(old(peripherals[..]), conn).slots
    {
      var err := ReleaseSlotForConn(conn);
      if err < 0 {
        return;
      }
    }

    /**
     * `split_central_service_discovery_func`, called by the stack for each
     * primary service found and once more with no attribute. `owner` is the
     * slot whose `discover_params` the stack passes back. The comparison is
     * made against the UUID the slot asked for, not the one found, so any
     * reported service counts as a match while that UUID is the relay's.
     * The characteristic search that follows keeps the range of the service
     * search.
     */
    method ServiceDiscoveryStep(conn: ConnRef, attr: Option<Attr>, owner: nat) returns (r: IterResult)
      requires Valid() && owner < peripherals.Length
      // bt_uuid_cmp dereferences the slot's uuid pointer
      requires attr.Some? && SlotIndexForConn(peripherals[..], conn) >= 0 ==>
        peripherals[SlotIndexForConn(peripherals[..], conn)].discoverParams.uuid.Some?
      modifies peripherals, this`requests
      ensures Valid()
      ensures attr.None? ==> r == Stop && requests == old(requests)
      ensures attr.None? ==>
        peripherals[..] == old(peripherals[..])[owner := old(peripherals[owner]).(discoverParams := ZeroDiscoverParams)]
      ensures attr.Some? && SlotIndexForConn(old(peripherals[..]), conn) < 0 ==>
        r == Stop && peripherals[..] == old(peripherals[..]) && requests == old(requests)
      ensures var idx := SlotIndexForConn(old(peripherals[..]), conn);
        attr.Some? && idx >= 0 && old(peripherals[idx]).discoverParams.uuid != Some(AltServiceUuid) ==>
          r == Continue && peripherals[..] == old(peripherals[..]) && requests == old(requests)
      ensures var idx := SlotIndexForConn(old(peripherals[..]), conn);
        attr.Some? && idx >= 0 && old(peripherals[idx]).discoverParams.uuid == Some(AltServiceUuid) ==>
          var p := old(peripherals[idx]).discoverParams.(
            uuid := None, func := ChrcDiscoveryFunc, discoverType := DiscoverCharacteristic);
          r == Stop &&
          peripherals[..] == old(peripherals[..])[idx := old(peripherals[idx]).(discoverParams := p)] &&
          requests == old(requests) + [DiscoverRequest(conn, idx, p)]
    {
      if attr.None? {
        peripherals[owner] := peripherals[owner].(discoverParams := ZeroDiscoverParams);
        return Stop;
      }
      var idx := SlotIndexForConn(peripherals[..], conn);
      if idx < 0 {
        return Stop;
      }
      if peripherals[idx].discoverParams.uuid != Some(AltServiceUuid) {
        return Continue;
      }
      peripherals[idx] := peripherals[idx].(discoverParams := peripherals[idx].discoverParams.(uuid := None));
      peripherals[idx] := peripherals[idx].(discoverParams := peripherals[idx].discoverParams.(func := ChrcDiscoveryFunc));
      peripherals[idx] := peripherals[idx].(
        discoverParams := peripherals[idx].discoverParams.(discoverType := DiscoverCharacteristic));
      requests := requests + [DiscoverRequest(conn, idx, peripherals[idx].discoverParams)];
      return Stop;
    }

    /**
     * `split_central_subscribe`: request notifications with the
     * `input_subscribe_params` of slot `owner`; `stackErr` is what
     * bt_gatt_subscribe answers (0, -EALREADY or a failure), which is only
     * logged and handed back.
     */
    method Subscribe(conn: ConnRef, owner: nat, stackErr: int) returns (err: int)
      requires owner < peripherals.Length
      modifies this`requests
      ensures err == stackErr
      ensures requests == old(requests) + [SubscribeRequest(conn, owner, peripherals[owner].inputSubscribeParams)]
    {
      requests := requests + [SubscribeRequest(conn, owner, peripherals[owner].inputSubscribeParams)];
      err := stackErr;
    }

    /**
     * `split_central_chrc_discovery_func`, called by the stack for each
     * characteristic declaration found and once more with no attribute. On the
     * input-state characteristic it records the value handle, moves the search
     * start past the declaration and its value (handle + 2, as a uint16_t) and
     * subscribes once. The search stops exactly when the slot holds a nonzero
     * input value handle afterwards.
     */
    method ChrcDiscoveryStep(conn: ConnRef, attr: Option<Attr>, subscribeErr: int) returns (r: IterResult)
      requires Valid()
      modifies peripherals, this`requests
      ensures Valid()
      ensures attr.None? || attr.value.userData.None? || SlotIndexForConn(old(peripherals[..]), conn) < 0 ==>
        r == Stop && peripherals[..] == old(peripherals[..]) && requests == old(requests)
      ensures var idx := SlotIndexForConn(old(peripherals[..]), conn);
        attr.Some? && attr.value.userData.Some? && idx >= 0 ==>
          (r == Stop <==> peripherals[idx].inputSubscribeParams.valueHandle != 0)
      ensures var idx := SlotIndexForConn(old(peripherals[..]), conn);
        attr.Some? && attr.value.userData.Some? && idx >= 0 &&
        attr.value.userData.value.uuid != AltInputStateUuid ==>
          peripherals[..] == old(peripherals[..]) && requests == old(requests)
      ensures var idx := SlotIndexForConn(old(peripherals[..]), conn);
        attr.Some? && attr.value.userData.Some? && idx >= 0 &&
        attr.value.userData.value.uuid == AltInputStateUuid ==>
          var s := old(peripherals[idx]);
          var s' := s.(
            discoverParams := s.discoverParams.(
              uuid := None,
              startHandle := (attr.value.handle + 2) % 0x1_0000,
              discoverType := DiscoverCharacteristic),
            inputSubscribeParams := SubscribeParams(
              notify := true,
              valueHandle := attr.value.userData.value.valueHandle,
              endHandle := s.discoverParams.endHandle,
              cccValue := CccNotify,
              autoDiscoverCcc := true));
          peripherals[..] == old(peripherals[..])[idx := s'] &&
          requests == old(requests) + [SubscribeRequest(conn, idx, s'.inputSubscribeParams)]
    {
      if attr.None? {
        return Stop;
      }
      if attr.value.userData.None? {
        return Stop;
      }
      var idx := SlotIndexForConn(peripherals[..], conn);
      if idx < 0 {
        return Stop;
      }
      var a := attr.value;
      if a.userData.value.uuid == AltInputStateUuid {
        var d := peripherals[idx].discoverParams;
        d := d.(uuid := None);
        d := d.(startHandle := (a.handle + 2) % 0x1_0000);
        d := d.(discoverType := DiscoverCharacteristic);
        peripherals[idx] := peripherals[idx].(discoverParams := d);
        var p := peripherals[idx].inputSubscribeParams;
        p := p.(autoDiscoverCcc := true);
        p := p.(endHandle := d.endHandle);
        p := p.(valueHandle := a.userData.value.valueHandle);
        p := p.(notify := true);
        p := p.(cccValue := CccNotify);
        peripherals[idx] := peripherals[idx].(inputSubscribeParams := p);
        var ignored := Subscribe(conn, idx, subscribeErr);
      }
      var subscribed := true;
      subscribed := subscribed && peripherals[idx].inputSubscribeParams.valueHandle != 0;
      r := if subscribed then Stop else Continue;
    }

    /**
     * `split_central_input_notify_func`. `owner` is the slot whose
     * `input_subscribe_params` the stack passes back; `data` is NULL or the
     * notified bytes; `stale` is what the decode buffer held before the copy.
     * A NULL payload ends the subscription: the value handle is cleared and
     * nothing is queued. Otherwise the record's channel is routed; an
     * unrouted channel is dropped, a routed one is offered to the queue
     * without waiting (a full queue drops it) and the work is submitted.
     */
    method InputNotify(owner: nat, data: Option<seq<Byte>>, stale: seq<Byte>) returns (r: IterResult)
      requires Valid() && owner < peripherals.Length && |stale| == RecordSize
      modifies peripherals, this`inbound, this`workSubmits
      ensures Valid()
      ensures data.None? ==> r == Stop && inbound == old(inbound) && workSubmits == old(workSubmits)
      ensures data.None? ==>
        peripherals[..] == old(peripherals[..])[owner := old(peripherals[owner]).(
          inputSubscribeParams := old(peripherals[owner]).inputSubscribeParams.(valueHandle := 0))]
      ensures data.Some? ==> r == Continue && peripherals[..] == old(peripherals[..])
      ensures data.Some? ==>
        var evt := Decode(CopyPayload(stale, data.value));
        var dev := DeviceForRelayChannel(routes, evt.relayChannel);
        (dev.None? ==> inbound == old(inbound) && workSubmits == old(workSubmits)) &&
        (dev.Some? ==>
          workSubmits == old(workSubmits) + 1 &&
          inbound == if |old(inbound)| < inboundCapacity
                     then old(inbound) + [InputEvent(dev.value, evt.sync, evt.eventType, evt.code, evt.value)]
                     else old(inbound))
    {
      if data.None? {
        peripherals[owner] := peripherals[owner].(
          inputSubscribeParams := peripherals[owner].inputSubscribeParams.(valueHandle := 0));
        return Stop;
      }
      var evt := Decode(CopyPayload(stale, data.value));
      var dev := DeviceForRelayChannel(routes, evt.relayChannel);
      if dev.None? {
        return Continue;
      }
      var ev := InputEvent(dev.value, evt.sync, evt.eventType, evt.code, evt.value);
      if |inbound| < inboundCapacity {
        inbound := inbound + [ev];
      }
      workSubmits := workSubmits + 1;
      return Continue;
    }

    /**
     * `peripheral_input_event_work_callback`: take events off the queue
     * until it is empty and report each, in queue order, as a relative event.
     */
    method InputEventWork()
      requires Valid()
      modifies this`inbound, this`reports
      ensures Valid()
      ensures inbound == []
      ensures reports == old(reports) + ReportsFor(old(inbound))
    {
      ghost var taken := 0;
      while inbound != []
        invariant 0 <= taken <= |old(inbound)|
        invariant inbound == old(inbound)[taken..]
        invariant reports == old(reports) + ReportsFor(old(inbound)[..taken])
        decreases |inbound|
      {
        var ev := inbound[0];
        inbound := inbound[1..];
        reports := reports + [ReportFor(ev)];
        assert old(inbound)[..taken + 1][..taken] == old(inbound)[..taken];
        taken := taken + 1;
      }
      assert old(inbound)[..taken] == old(inbound);
    }
  }
}
