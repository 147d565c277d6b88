/**
 * The local input pipeline's side of the relay: the event record
 * (`struct input_event`) and the calls the central makes into the pipeline.
 */
module InputEvents {
  import opened WireEvent

  /** A `const struct device *`, opaque. */
  type Device = nat

  /** `struct input_event`: device, sync flag, type, code and value. */
  datatype InputEvent = InputEvent(dev: Device, sync: U8, eventType: U8, code: U16, value: I32)

  /**
   * One call `input_report_rel(dev, code, value, sync, K_NO_WAIT)`. The call
   * always reports a relative-axis event, so no event type is passed, and its
   * `sync` parameter is a `bool`.
   */
  datatype RelReport = RelReport(dev: Device, code: U16, value: I32, sync: bool)

  /** The pipeline call the central makes for one queued event. */
  function ReportFor(ev: InputEvent): RelReport
  {
    RelReport(ev.dev, ev.code, ev.value, ev.sync != 0)
  }

  /** The calls made for a run of queued events, in queue order. */
  function ReportsFor(evs: seq<InputEvent>): (rs: seq<RelReport>)
    ensures |rs| == |evs|
    ensures forall i :: 0 <= i < |evs| ==> rs[i] == ReportFor(evs[i])
  {
    if evs == [] then [] else ReportsFor(evs[..|evs| - 1]) + [ReportFor(evs[|evs| - 1])]
  }
}
