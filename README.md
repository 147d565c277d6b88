# Split-keyboard input relay, modelled in Dafny

This project models the input relay of a ZMK split keyboard over Bluetooth LE.
A peripheral half forwards pointer and sensor events to the central half,
which injects them into its own input pipeline as if they came from a local
device.

- **Wire record** (`event.dfy`, module `WireEvent`): the packed
  `struct zmk_split_bt_input_event` is 9 bytes. It holds the relay channel,
  sync, type, a 16-bit code and a 32-bit signed value. Encode and decode are
  inverse in both directions. The field layout is proved byte by byte.
  Multi-byte fields are host order; the model fixes little-endian on both
  sides.
- **Central slot pool** (`slots.dfy`, module `Slots`): the
  `peripherals[]` table as a value. It covers lookup by connection, release
  (which refuses a double release) and reserve through the persistent
  address-to-index map, which is a parameter here. Each is a function from
  the old pool to a return code and the new pool.
- **Central** (`central.dfy`, class `InputRelayCentral.Central`): the pool
  mutated in place, the connect and disconnect callbacks, and the
  service and characteristic discovery callbacks. Each callback is one
  step over one slot, and every discover or subscribe request goes into a
  request log. It also covers the notification callback (decode, route,
  non-blocking enqueue that drops the newest on a full queue) and the work
  item that drains the queue into `input_report_rel` calls.
- **Peripheral** (`peripheral.dfy`, class `InputRelayPeripheral.Peripheral`):
  the bounded outbound queue. On a full queue it discards the oldest record
  and retries, as a recursive call. The drain notifies every record through
  `last_input_event`, and the read handler serves that global. A ghost
  history of accepted records proves that the notified records are accepted
  records, in their order.
- **Routing** (`routing.dfy`): the static channel-to-device table and its
  first-match lookup.
- **Scenarios** (`scenarios.dfy`): a full discovery on a fresh central, and one
  event from a peripheral handler to the central's input pipeline.

Bluetooth Core Specification Vol 3 Part G names the procedures the discovery
steps drive:
- section 4.4.2: Discover Primary Service by Service UUID;
- section 4.6.1: Discover All Characteristics of a Service;
- section 3.3.3.3: Client Characteristic Configuration;
- section 4.10: Characteristic Value Notification.

Only the requests and the callbacks' reactions are modelled.

Behaviour of the code that is easy to miss, all modelled as written:
- The packed record is 9 bytes: channel, sync, type, a 2-byte code and a
  4-byte value.
- The central decodes into an uninitialised stack buffer. A payload shorter
  than 9 bytes leaves the bytes it does not supply to whatever that buffer
  held (the `stale` parameter). `ShortPayloadValueIsStale` shows that every
  field not fully delivered, and so the value of every short payload, then
  depends on it.
- Only a NULL `data` pointer ends a subscription. A non-NULL payload of
  length 0 is decoded like any other short payload.
- Reserve's "reinitialise" call to release hits the OPEN guard and does
  nothing, so stale discover and subscribe parameters survive into the new
  connection.
- Release clears `subscribe_params.value_handle`, but discovery only ever sets
  `input_subscribe_params.value_handle`. So the guard in
  `split_central_process_connection` always passes. This is part of the
  pool invariant.
- The CONNECTING state is never assigned. The invariant excludes it.
- Every routing entry takes instance 0's relay channel. So only that channel
  is ever routed, and always to instance 0's device
  (`OnlyFirstInstanceRoutable`).
- Events are dispatched through `input_report_rel`, so the wire `type` field
  never reaches the pipeline.
- The service step compares the UUID the slot asked for, not the found
  attribute's UUID.
- The characteristic search reuses the service search's 0x0001..0xffff range
  unchanged, so it covers every attribute of the peer, not only the
  service found (`DiscoveryReachesSubscription` shows the request).
- The peripheral source refers to `zmk_split_bt_input_relay_event` and
  `ZMK_SPLIT_BT_IR_*`. They are taken to be the `event.h` record and the
  `uuid.h` ALT UUIDs.
- The build is taken to have `CONFIG_INPUT` enabled.

## Model

| member | source | states |
|---|---|---|
| WireEvent.Encode | include/zmk/split/input-relay/event.h:9-15 | the packed record is exactly 9 bytes |
| WireEvent.Decode | include/zmk/split/input-relay/event.h:9-15 | every 9-byte buffer is the encoding of the record it decodes to, so no byte pattern is lost |
| WireEvent.DecodeEncode | include/zmk/split/input-relay/event.h:9-15 | every record (fields in their C ranges) decodes back from its bytes |
| WireEvent.FieldLayout | include/zmk/split/input-relay/event.h:10-14 | channel at byte 0, sync at 1, type at 2, code at 3-4, value at 5-8: each field is equal across two buffers exactly when its own bytes are |
| Routing.RoutingTable | src/input_relay_central.c:358-364 | one entry per instance, with that instance's device and instance 0's relay channel |
| Routing.DeviceForRelayChannel | src/input_relay_central.c:366-379 | NULL exactly when no entry has the channel; otherwise the device of the first matching entry |
| Routing.OnlyFirstInstanceRoutable | src/input_relay_central.c:358-373 | with the generated table, a channel is routed iff it is instance 0's channel, and then always to instance 0's device |
| InputEvents.ReportsFor | src/input_relay_central.c:117-123 | one input_report_rel call per event, in queue order, with the event's device, code, value and sync as a bool |
| Slots.SlotIndexForConn | src/input_relay_central.c:48-55 | the lowest index whose conn equals the argument, or -EINVAL exactly when no slot holds it |
| Slots.Release | src/input_relay_central.c:65-87 | -EINVAL with the pool unchanged iff the index is out of range or the slot is OPEN; otherwise 0, conn NULL, state OPEN, subscribe handle 0, and no other slot or field changed |
| Slots.Reserve | src/input_relay_central.c:89-102 | returns the mapped index, with that slot CONNECTED and bound to conn, iff the map gave an index and the slot was OPEN; else -ENOMEM and the pool unchanged; the inner release changes nothing |
| Slots.ReleaseForConn | src/input_relay_central.c:104-111 | -EINVAL and no change when no slot holds conn, else release of the lowest slot holding it |
| Slots.DoubleReleaseFails | src/input_relay_central.c:72-74 | releasing a just-released slot fails with -EINVAL and changes nothing |
| Slots.ReserveNeverRebinds | src/input_relay_central.c:91-101 | a slot that is not OPEN is never rebound: -ENOMEM, pool unchanged |
| Slots.LookupFindsConnected | src/input_relay_central.c:48-55 | on a reachable pool a live connection is only found in a CONNECTED slot |
| Slots.ReleasePreservesInvariant | src/input_relay_central.c:65-86 | release keeps the pool invariant (no CONNECTING, conn set iff not OPEN, subscribe handle 0) |
| Slots.ReservePreservesInvariant | src/input_relay_central.c:89-101 | reserve with a live connection keeps the pool invariant |
| Slots.ReconnectRebindsSameSlot | src/input_relay_central.c:89-111 | after a disconnect releases a peer's slot, a reserve with the same mapped index rebinds that same slot |
| InputRelayCentral.CopyPayload | src/input_relay_central.c:140-141 | the decode buffer holds the first min(length, 9) payload bytes, and the rest is what the buffer held before |
| InputRelayCentral.PayloadFixesDeliveredFields | src/input_relay_central.c:140-143 | a decoded field is independent of the stale buffer once all its bytes are delivered; a full payload decodes as its first 9 bytes |
| InputRelayCentral.ShortPayloadValueIsStale | src/input_relay_central.c:140-141 | a field any of whose bytes the payload does not supply differs between two stale buffers (all 0x00, all 0xff); for every payload shorter than 9 bytes this includes the value |
| InputRelayCentral.NotifiedRecordDecodes | src/input_relay_central.c:140-152 | the bytes a peripheral notifies for a record decode back to that record, whatever the buffer held |
| InputRelayCentral.Central.constructor | src/input_relay_central.c:44-46 | a zeroed pool of all-OPEN slots, an empty queue, the routing table built from the instances |
| InputRelayCentral.Central.ReleaseSlot | src/input_relay_central.c:65-87 | the return code and the new pool are those of Slots.Release, and the pool invariant is kept |
| InputRelayCentral.Central.ReserveSlotForConn | src/input_relay_central.c:89-102 | the return code and the new pool are those of Slots.Reserve; only slot `addrIndex` can change |
| InputRelayCentral.Central.ReleaseSlotForConn | src/input_relay_central.c:104-111 | the return code and the new pool are those of Slots.ReleaseForConn |
| InputRelayCentral.Central.ProcessConnection | src/input_relay_central.c:260-291 | the slot holding conn gets a primary search for the relay service over 0x0001..0xffff and exactly that discover request is issued; the value-handle guard never blocks it; unknown conn changes nothing |
| InputRelayCentral.Central.OnConnected | src/input_relay_central.c:293-321 | non-central role: no change; connection error: release of the slot holding conn; otherwise reserve, and only on success one service discovery in the lowest slot holding conn |
| InputRelayCentral.Central.OnDisconnected | src/input_relay_central.c:323-336 | releases the slot holding conn |
| InputRelayCentral.Central.ServiceDiscoveryStep | src/input_relay_central.c:225-258 | no attribute: zero the passed discover params, STOP; unknown conn: STOP, no change; slot UUID not the relay's: CONTINUE, no change; match: uuid cleared, characteristic discovery, one discover request, STOP |
| InputRelayCentral.Central.Subscribe | src/input_relay_central.c:161-176 | issues exactly one subscribe with the slot's input subscribe params and hands back the stack's answer |
| InputRelayCentral.Central.ChrcDiscoveryStep | src/input_relay_central.c:178-223 | no attribute, no user data or unknown conn: STOP, no change; input-state characteristic: value handle recorded, start at handle+2 (mod 2^16), one subscribe; STOP iff the input value handle is nonzero afterwards |
| InputRelayCentral.Central.InputNotify | src/input_relay_central.c:129-158 | NULL data: clear that subscription's value handle, STOP, nothing queued; unrouted channel: CONTINUE, nothing queued; else one (dev, sync, type, code, value) offered without blocking (a full queue is left as it was), work submitted, CONTINUE |
| InputRelayCentral.Central.InputEventWork | src/input_relay_central.c:117-123 | the queue ends empty and exactly one input_report_rel call per queued event was made, in FIFO order |
| InputRelayPeripheral.Peripheral.constructor | src/input_relay_peripheral.c:27-56 | an empty queue, a zeroed last_input_event, nothing notified |
| InputRelayPeripheral.Peripheral.SendInputState | src/input_relay_peripheral.c:70-89 | room: record appended, work submitted, 0; full with -EAGAIN: exactly the oldest dropped, record last, length stays at capacity, 0; any other error returned with the queue unchanged and no work submitted |
| InputRelayPeripheral.Peripheral.InputEventTriggered | src/input_relay_peripheral.c:91-102 | the record carries the given relay channel and the event's sync, type, code and value unchanged and is sent once: when the queue takes it, it is appended (after the oldest is dropped on a full queue with -EAGAIN) and the notify work is submitted once; otherwise queue and work count are unchanged |
| InputRelayPeripheral.Peripheral.SendInputStateCallback | src/input_relay_peripheral.c:58-66 | every queued record notified exactly once in FIFO order, none requeued, queue empty; last_input_event is the last record taken or unchanged if none |
| InputRelayPeripheral.Peripheral.ReadInputState | src/input_relay_peripheral.c:29-33 | the bytes of last_input_event from the offset, at most the buffer length; offset past 9 is an ATT error; a full read decodes to last_input_event |
| InputRelayPeripheral.Peripheral.NotifiedAreAcceptedInOrder | src/input_relay_peripheral.c:58-88 | over any run of sends and drains, the notified records are a subsequence of the accepted ones, so never more of them |
| RelayScenarios.DiscoveryReachesSubscription | src/input_relay_central.c:178-258 | connect, relay service found, input-state characteristic found: the requests are the service search, a characteristic search with no UUID filter over the same 0x0001..0xffff range, and exactly one subscribe with the reported value handle |
| RelayScenarios.OneEventEndToEnd | src/input_relay_central.c:117-158 | the peripheral's event {channel 2, sync 1, type 3, code 7, value -5} reaches the central's pipeline as exactly one relative report (device d, code 7, value -5, sync) |

## Left out

- The Bluetooth host stack is not modelled. This covers bt_gatt_discover,
  bt_gatt_subscribe, bt_gatt_notify, bt_conn_get_info and bt_conn_get_dst, and
  the ATT protocol. Discover and subscribe calls are logged as requests, and
  their return codes only reach the logs. The found attributes are
  parameters: the handle, and the characteristic UUID and value handle from
  the declaration's user data.
- bt_gatt_attr_read is modelled by what it returns. bt_gatt_attr_value_handle
  is not modelled: the value handle is taken from the declaration.
- The persistent address-to-index map `zmk_ble_put_peripheral_addr` is not
  modelled. Its answer is a parameter; a non-negative answer is below the pool
  size.
- Kernel scheduling is not modelled. Work queues and their threads, and the
  100 ms wait in `k_msgq_put`, are left out. Submissions are counted, and the
  deferred work runs when its method is called. The outcome of a wait on a
  full outbound queue is the parameter `putErr`.
- `SYS_INIT`, `service_init`, the callback registration, the GATT service
  definition and the log-only CCC callback have no effect on the relay's
  state and are left out.
- Logging and connection-security reporting are left out.
- The UUIDs are two distinct opaque constants. The 128-bit values of `uuid.h`
  are not modelled.
- Devicetree expansion is replaced by a list of instances.
- `virtual_input.c` (device registration only) is not part of this model.
- `alt_peripheral_slot_for_conn` is folded into its callers as
  `SlotIndexForConn` plus an array index.
- InputRelayCentral.Central.ServiceDiscoveryStep: requires that the slot's
  UUID pointer is non-NULL when a found attribute is compared. `bt_uuid_cmp`
  dereferences it, so the source has no defined behaviour there.
- InputRelayPeripheral.Peripheral.constructor: requires a queue capacity of at
  least 1. With capacity 0 the full-queue retry in `send_input_state` would
  recurse forever.
- InputRelayPeripheral.Peripheral.SendInputStateCallback: failed notifications
  are not represented separately. The source only logs them, and the record
  counts as notified either way.
