/**
 * The central's connection-slot pool (`peripherals[]`) as a value: the slot
 * record, the lookup by connection, and the release and reserve operations
 * as functions from the old pool to a return code and the new pool. The class
 * `InputRelayCentral.Central` performs them in place on its array.
 */
module Slots {
  import opened Wrappers
  import opened Gatt

  const EINVAL: int := 22
  const ENOMEM: int := 12

  datatype SlotState = Open | Connecting | Connected

  /** `struct alt_peripheral_slot`. */
  datatype Slot = Slot(
    state: SlotState,
    conn: ConnRef,
    discoverParams: DiscoverParams,
    subscribeParams: SubscribeParams,
    inputSubscribeParams: SubscribeParams,
    subDiscoverParams: DiscoverParams)

  /** A slot of the zero-initialised static pool. */
  const EmptySlot: Slot :=
    Slot(Open, Null, ZeroDiscoverParams, ZeroSubscribeParams, ZeroSubscribeParams, ZeroDiscoverParams)

  /** A return code together with the pool it leaves. */
  datatype Outcome = Outcome(rc: int, slots: seq<Slot>)

  /**
   * What every slot of a reachable pool satisfies: CONNECTING is never used, a
   * slot holds a connection exactly when it is not OPEN, and the handle of
   * `subscribe_params` stays 0 because only release ever writes it.
   */
  ghost predicate SlotInvariant(s: Slot)
  {
    s.state != Connecting &&
    (s.state == Open <==> s.conn == Null) &&
    s.subscribeParams.valueHandle == 0
  }

  ghost predicate PoolInvariant(slots: seq<Slot>)
  {
    forall i :: 0 <= i < |slots| ==> SlotInvariant(slots[i])
  }

  /** `alt_peripheral_slot_index_for_conn`: the lowest index holding `conn`, or -EINVAL. */
  function SlotIndexForConn(slots: seq<Slot>, conn: ConnRef): (r: int)
    ensures r == -EINVAL || 0 <= r < |slots|
    ensures r == -EINVAL <==> forall i :: 0 <= i < |slots| ==> slots[i].conn != conn
    ensures r >= 0 ==> slots[r].conn == conn && forall i :: 0 <= i < r ==> slots[i].conn != conn
  {
    if slots == [] then -EINVAL
    else if slots[0].conn == conn then 0
    else
      var r := SlotIndexForConn(slots[1..], conn);
      if r < 0 then r else r + 1
  }

  /**
   * `release_alt_peripheral_slot`: an index outside the pool or an OPEN slot
   * is refused with -EINVAL and nothing changes (so releasing twice fails);
   * otherwise the slot loses its connection, becomes OPEN and forgets the
   * handle in `subscribe_params`, and nothing else in the pool changes.
   */
  function Release(slots: seq<Slot>, index: int): (o: Outcome)
    ensures o.rc == 0 || o.rc == -EINVAL
    ensures o.rc == -EINVAL <==> index < 0 || index >= |slots| || slots[index].state == Open
    ensures o.rc == -EINVAL ==> o.slots == slots
    ensures o.rc == 0 ==> |o.slots| == |slots|
    ensures o.rc == 0 ==> forall j :: 0 <= j < |slots| && j != index ==> o.slots[j] == slots[j]
    ensures o.rc == 0 ==> o.slots[index] == slots[index].(
                            state := Open, conn := Null,
                            subscribeParams := slots[index].subscribeParams.(valueHandle := 0))
  {
    if index < 0 || index >= |slots| then Outcome(-EINVAL, slots)
    else
      var slot := slots[index];
      if slot.state == Open then Outcome(-EINVAL, slots)
      else
        var slot := if slot.conn != Null then slot.(conn := Null) else slot;
        var slot := slot.(state := Open);
        var slot := slot.(subscribeParams := slot.subscribeParams.(valueHandle := 0));
        Outcome(0, slots[index := slot])
  }

  /**
   * `reserve_alt_peripheral_slot_for_conn`, with `index` the answer of the
   * persistent address-to-index map. It binds `conn` to slot `index` and marks
   * it CONNECTED exactly when the answer is an index and that slot is OPEN;
   * otherwise it returns -ENOMEM and the pool is untouched. The release it
   * calls first hits the OPEN guard, so the slot's discovery and subscription
   * records keep whatever they held.
   */
  function Reserve(slots: seq<Slot>, conn: ConnRef, index: int): (o: Outcome)
    requires index < |slots|
    ensures o.rc >= 0 <==> 0 <= index && slots[index].state == Open
    ensures o.rc < 0 ==> o.rc == -ENOMEM && o.slots == slots
    ensures o.rc >= 0 ==> o.rc == index
    ensures o.rc >= 0 ==> o.slots == slots[index := slots[index].(conn := conn, state := Connected)]
  {
    if 0 <= index && slots[index].state == Open then
      var cleared := Release(slots, index).slots;
      Outcome(index, cleared[index := cleared[index].(conn := conn, state := Connected)])
    else
      Outcome(-ENOMEM, slots)
  }

  /**
   * `release_alt_peripheral_slot_for_conn`: -EINVAL with nothing changed when
   * no slot holds `conn`, otherwise a release of the lowest slot holding it.
   */
  function ReleaseForConn(slots: seq<Slot>, conn: ConnRef): (o: Outcome)
    ensures SlotIndexForConn(slots, conn) < 0 ==> o == Outcome(-EINVAL, slots)
    ensures SlotIndexForConn(slots, conn) >= 0 ==> o == Release(slots, SlotIndexForConn(slots, conn))
  {
    var idx := SlotIndexForConn(slots, conn);
    if idx < 0 then Outcome(idx, slots) else Release(slots, idx)
  }

  /** A released slot cannot be released again. */
  lemma DoubleReleaseFails(slots: seq<Slot>, index: int)
    requires Release(slots, index).rc == 0
    ensures Release(Release(slots, index).slots, index) == Outcome(-EINVAL, Release(slots, index).slots)
  {
  }

  /** A slot that is not OPEN is never rebound by reserve. */
  lemma ReserveNeverRebinds(slots: seq<Slot>, conn: ConnRef, index: int)
    requires 0 <= index < |slots| && slots[index].state != Open
    ensures Reserve(slots, conn, index) == Outcome(-ENOMEM, slots)
  {
  }

  /** On a reachable pool, a live connection is only ever found in a CONNECTED slot. */
  lemma LookupFindsConnected(slots: seq<Slot>, conn: ConnRef)
    requires PoolInvariant(slots) && conn != Null
    ensures SlotIndexForConn(slots, conn) >= 0 ==> slots[SlotIndexForConn(slots, conn)].state == Connected
  {
  }

  lemma ReleasePreservesInvariant(slots: seq<Slot>, index: int)
    requires PoolInvariant(slots)
    ensures PoolInvariant(Release(slots, index).slots)
  {
  }

  lemma ReservePreservesInvariant(slots: seq<Slot>, conn: ConnRef, index: int)
    requires PoolInvariant(slots) && conn != Null && index < |slots|
    ensures PoolInvariant(Reserve(slots, conn, index).slots)
  {
  }

  /**
   * A peer that disconnects and comes back gets the same slot: when the
   * identity map answers with the slot the connection held, the release on
   * disconnect makes that slot OPEN and the reserve binds it again.
   */
  lemma ReconnectRebindsSameSlot(slots: seq<Slot>, conn: ConnRef, next: ConnRef, index: int)
    requires PoolInvariant(slots) && conn != Null && next != Null
    requires 0 <= index < |slots| && SlotIndexForConn(slots, conn) == index
    ensures Reserve(ReleaseForConn(slots, conn).slots, next, index).rc == index
    ensures SlotIndexForConn(Reserve(ReleaseForConn(slots, conn).slots, next, index).slots, next) >= 0
  {
    LookupFindsConnected(slots, conn);
    var released := ReleaseForConn(slots, conn).slots;
    var bound := Reserve(released, next, index).slots;
    assert bound[index].conn == next;
  }
}
