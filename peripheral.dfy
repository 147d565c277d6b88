/**
 * The peripheral half of the input relay: each local input event becomes a
 * wire record on a bounded queue (dropping the oldest record when the queue
 * stays full), and a deferred work item notifies the queued records one by
 * one through the `last_input_event` global, which the characteristic's read
 * handler also serves.
 *
 * bt_gatt_notify calls are recorded in `notified` (each carries the 9 bytes
 * `Encode` gives for the record); `k_work_submit_to_queue` is counted in
 * `workSubmits` and the deferred work runs when `SendInputStateCallback` is
 * called. The ghost `accepted` lists every record the queue ever took.
 */
module InputRelayPeripheral {
  import opened Wrappers
  import opened WireEvent
  import opened InputEvents
  import opened Subsequence

  const EAGAIN: int := 11
  /** BT_ATT_ERR_INVALID_OFFSET. */
  const AttErrInvalidOffset: int := 0x07

  class Peripheral {
    /** CONFIG_ZMK_SPLIT_BLE_PERIPHERAL_POSITION_QUEUE_SIZE. */
    const capacity: nat
    /** `input_state_msgq`, oldest first. */
    var queue: seq<Record>
    var lastInputEvent: Record
    /** How often `service_input_notify_work` was submitted. */
    var workSubmits: nat
    /** Every record notified, in order. */
    var notified: seq<Record>
    ghost var accepted: seq<Record>

    /**
     * The queue stays within its capacity, and what was notified followed by
     * what is still queued is what was accepted, minus the records evicted,
     * in the order they were accepted.
     */
    ghost predicate Valid()
      reads this
    {
      0 < capacity && |queue| <= capacity && IsSubseq(notified + queue, accepted)
    }

    /** The state at boot; a queue of capacity 0 would make the full-queue retry recurse forever. */
    constructor (queueSize: nat)
      requires queueSize > 0
      ensures Valid()
      ensures capacity == queueSize && queue == [] && lastInputEvent == ZeroRecord
      ensures workSubmits == 0 && notified == [] && accepted == []
    {
      capacity := queueSize;
      queue := [];
      lastInputEvent := ZeroRecord;
      workSubmits := 0;
      notified := [];
      accepted := [];
    }

    /**
     * `send_input_state`. A queue with room takes the record at its tail and
     * the notify work is submitted. On a full queue `k_msgq_put` waits and
     * then fails with `putErr`: -EAGAIN discards exactly the oldest record and
     * retries, which then succeeds; any other error is returned with nothing
     * changed.
     */
    method SendInputState(ev: Record, putErr: int) returns (err: int)
      requires Valid() && putErr != 0
      modifies this
      decreases if |queue| < capacity then 0 else 1
      ensures Valid()
      ensures notified == old(notified) && lastInputEvent == old(lastInputEvent)
      ensures |old(queue)| < capacity ==> err == 0 && queue == old(queue) + [ev]
      ensures |old(queue)| == capacity && putErr == -EAGAIN ==> err == 0 && queue == old(queue)[1..] + [ev]
      ensures |old(queue)| == capacity && putErr != -EAGAIN ==> err == putErr && queue == old(queue)
      ensures err == 0 ==> workSubmits == old(workSubmits) + 1 && accepted == old(accepted) + [ev]
      ensures err != 0 ==> workSubmits == old(workSubmits) && accepted == old(accepted)
    {
      // k_msgq_put(&input_state_msgq, &ev, K_MSEC(100))
      if |queue| < capacity {
        AppendBoth(notified + queue, accepted, ev);
        assert notified + queue + [ev] == notified + (queue + [ev]);
        queue := queue + [ev];
        accepted := accepted + [ev];
        err := 0;
      } else {
        err := putErr;
      }
      if err != 0 {
        if err == -EAGAIN {
          // k_msgq_get(&input_state_msgq, &discarded_state, K_NO_WAIT)
          DropOne(notified + queue, accepted, |notified|);
          assert (notified + queue)[..|notified|] + (notified + queue)[|notified| + 1..] == notified + queue[1..];
          queue := queue[1..];
          err := SendInputState(ev, putErr);
          return;
        }
        return err;
      }
      workSubmits := workSubmits + 1;
      return 0;
    }

    /**
     * `zmk_split_bt_input_ev_triggered`: the record carries the instance's
     * relay channel and the event's sync, type, code and value unchanged, and
     * is sent once, which submits the notify work when the queue takes it; the
     * result of the send is ignored.
     */
    method InputEventTriggered(relayChannel: U8, evt: InputEvent, putErr: int)
      requires Valid() && putErr != 0
      modifies this
      ensures Valid()
      ensures var rec := Record(relayChannel, evt.sync, evt.eventType, evt.code, evt.value);
        if |old(queue)| < capacity || putErr == -EAGAIN then
          accepted == old(accepted) + [rec] && workSubmits == old(workSubmits) + 1 &&
          queue == (if |old(queue)| < capacity then old(queue) else old(queue)[1..]) + [rec]
        else
          accepted == old(accepted) && workSubmits == old(workSubmits) && queue == old(queue)
      ensures notified == old(notified) && lastInputEvent == old(lastInputEvent)
    {
      var ev := Record(relayChannel, evt.sync, evt.eventType, evt.code, evt.value);
      var ignored := SendInputState(ev, putErr);
    }

    /**
     * `send_input_state_callback`: every queued record is taken off in FIFO
     * order into `last_input_event` and notified once; a failed notification
     * is only logged. Afterwards the queue is empty and `last_input_event` is
     * the last record taken, or unchanged when there was none.
     */
    method SendInputStateCallback()
      requires Valid()
      modifies this
      ensures Valid()
      ensures queue == [] && notified == old(notified) + old(queue)
      ensures lastInputEvent == if old(queue) == [] then old(lastInputEvent) else old(queue)[|old(queue)| - 1]
      ensures accepted == old(accepted) && workSubmits == old(workSubmits)
    {
      while queue != []
        invariant Valid()
        invariant notified + queue == old(notified) + old(queue)
        invariant |old(notified)| <= |notified|
        invariant lastInputEvent == if |notified| == |old(notified)| then old(lastInputEvent) else notified[|notified| - 1]
        invariant accepted == old(accepted) && workSubmits == old(workSubmits)
        decreases |queue|
      {
        lastInputEvent := queue[0];
        assert notified + [queue[0]] + queue[1..] == notified + queue;
        queue := queue[1..];
        notified := notified + [lastInputEvent];
      }
      assert notified == old(notified) + old(queue);
    }

    /**
     * `split_svc_input_state`, the characteristic's read handler: the bytes of
     * `last_input_event` from `offset`, at most `bufLen` of them; an offset
     * past the end is refused with an ATT error.
     */
    function ReadInputState(bufLen: nat, offset: nat): (r: Result<seq<Byte>, int>)
      reads this
      ensures r.Err? <==> offset > RecordSize
      ensures r.Err? ==> r.error == -AttErrInvalidOffset
      ensures r.Ok? ==> |r.value| <= bufLen && offset + |r.value| <= RecordSize
      ensures r.Ok? ==> (|r.value| == bufLen || offset + |r.value| == RecordSize)
      ensures r.Ok? ==> forall i :: 0 <= i < |r.value| ==> r.value[i] == Encode(lastInputEvent)[offset + i]
      ensures offset == 0 && bufLen >= RecordSize ==> r.Ok? && Decode(r.value) == lastInputEvent
    {
      if offset > RecordSize then Err(-AttErrInvalidOffset)
      else
        var len := if bufLen < RecordSize - offset then bufLen else RecordSize - offset;
        var bytes := Encode(lastInputEvent)[offset..offset + len];
        DecodeEncode(lastInputEvent);
        assert offset == 0 && len == RecordSize ==> bytes == Encode(lastInputEvent);
        Ok(bytes)
    }

    /**
     * Over any run of sends and drains, the notified records are accepted
     * records in the order they were accepted, and there are never more of
     * them than records accepted.
     */
    lemma NotifiedAreAcceptedInOrder()
      requires Valid()
      ensures IsSubseq(notified, accepted)
      ensures |notified| <= |accepted|
    {
      PrefixOf(notified, queue, accepted);
      NoLonger(notified, accepted);
    }
  }
}
