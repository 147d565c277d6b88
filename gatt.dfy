/**
 * The parts of the Bluetooth host stack the relay touches, as plain values:
 * connection references, UUIDs, the discover and subscribe parameter records
 * the relay fills in, the attributes a discovery reports, and a log entry for
 * every discover or subscribe request the relay issues. The stack itself (the
 * ATT protocol, the actual searches) is outside the model.
 */
module Gatt {
  import opened Wrappers

  /** An attribute handle (uint16_t). */
  type Handle = x: int | 0 <= x < 0x1_0000

  /** A `struct bt_conn *`: NULL or a live connection object. */
  datatype ConnRef = Null | Conn(id: nat)

  /**
   * 128-bit UUIDs, opaque: the alternative split service, its input-state
   * characteristic, and anything else a peer may expose.
   */
  datatype Uuid = AltServiceUuid | AltInputStateUuid | OtherUuid(id: nat)

  /** The local role on a connection, from bt_conn_get_info. */
  datatype Role = RoleCentral | RolePeripheral

  /** BT_GATT_ITER_STOP / BT_GATT_ITER_CONTINUE. */
  datatype IterResult = Stop | Continue

  /** Which relay callback a discover request reports to (`discover_params.func`). */
  datatype DiscoverFunc = NoFunc | ServiceDiscoveryFunc | ChrcDiscoveryFunc

  /** `discover_params.type`; primary-service discovery is the zero value. */
  datatype DiscoverType = DiscoverPrimary | DiscoverCharacteristic

  /** `struct bt_gatt_discover_params`, the fields the relay sets. */
  datatype DiscoverParams = DiscoverParams(
    uuid: Option<Uuid>,
    func: DiscoverFunc,
    startHandle: Handle,
    endHandle: Handle,
    discoverType: DiscoverType)

  const ZeroDiscoverParams: DiscoverParams := DiscoverParams(None, NoFunc, 0, 0, DiscoverPrimary)

  /**
   * Search the whole handle range for the relay's primary service (Discover
   * Primary Service by Service UUID, Bluetooth Core Specification Vol 3 Part G
   * section 4.4.2).
   */
  const ServiceSearch: DiscoverParams :=
    DiscoverParams(Some(AltServiceUuid), ServiceDiscoveryFunc, 0x0001, 0xffff, DiscoverPrimary)

  /** BT_GATT_CCC_NOTIFY: the Client Characteristic Configuration value that enables notifications. */
  const CccNotify: nat := 0x0001

  /**
   * `struct bt_gatt_subscribe_params`, the fields the relay sets; `notify` says
   * whether the notification callback is installed, `autoDiscoverCcc` whether
   * `disc_params` points at the slot's own descriptor-discovery record.
   */
  datatype SubscribeParams = SubscribeParams(
    notify: bool,
    valueHandle: Handle,
    endHandle: Handle,
    cccValue: nat,
    autoDiscoverCcc: bool)

  const ZeroSubscribeParams: SubscribeParams := SubscribeParams(false, 0, 0, 0, false)

  /** `struct bt_gatt_chrc`, the user data of a characteristic declaration. */
  datatype Chrc = Chrc(uuid: Uuid, valueHandle: Handle)

  /** An attribute reported by a discovery; `userData` is NULL or a characteristic declaration. */
  datatype Attr = Attr(handle: Handle, userData: Option<Chrc>)

  /**
   * A request the relay issued: bt_gatt_discover or bt_gatt_subscribe on a
   * connection, with the parameter record of pool slot `slot` as it was passed.
   */
  datatype GattRequest =
    | DiscoverRequest(conn: ConnRef, slot: nat, discover: DiscoverParams)
    | SubscribeRequest(conn: ConnRef, slot: nat, subscribe: SubscribeParams)
}
