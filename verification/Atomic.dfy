/** The node as if every delivery, drain and callback happened in one step. */
module Atomic {
  import opened Numeric
  import opened Options
  import opened Wire
  import opened Protocol
  import opened Messages

  /** A decoded feedback frame on its way to one of the two queues. */
  datatype Item = StatusItem(status: StatusFrame) | ExtendedItem(ext: ExtendedPositionFrame)

  /** What RX makes of a frame: the status decoder is tried first. */
  function Decode(frame: CanFrame, canId: uint8): Option<Item> {
    if DecodeStatusFrame(frame, canId).Some? then Some(StatusItem(DecodeStatusFrame(frame, canId).value))
    else if DecodeExtendedPositionFrame(frame, canId).Some? then
      Some(ExtendedItem(DecodeExtendedPositionFrame(frame, canId).value))
    else None
  }

  /** The node's data, with everything it has published, absorbed or attempted to send so far. */
  datatype Core = Core(
    statusQueue: seq<StatusFrame>, extQueue: seq<ExtendedPositionFrame>, cache: Option<real>,
    absorbed: seq<ExtendedPositionFrame>, consumed: seq<StatusFrame>,
    states: seq<MotorState>, diagnostics: seq<Diagnostic>, attempts: seq<CanFrame>)

  const EMPTY := Core([], [], None, [], [], [], [], [])

  function Push(core: Core, item: Item): Core {
    match item
    case StatusItem(s) => core.(statusQueue := core.statusQueue + [s])
    case ExtendedItem(e) => core.(extQueue := core.extQueue + [e])
  }

  /** The cache after absorbing extended positions in order: the last one wins. */
  function Absorb(cache: Option<real>, exts: seq<ExtendedPositionFrame>): Option<real> {
    if exts == [] then cache else Some(exts[|exts| - 1].positionDeg)
  }

  function Reports(cfg: Config, statuses: seq<StatusFrame>, cache: Option<real>): seq<MotorState> {
    seq(|statuses|, i requires 0 <= i < |statuses| => Report(cfg, statuses[i], cache))
  }

  function Diagnoses(cfg: Config, statuses: seq<StatusFrame>): seq<Diagnostic> {
    seq(|statuses|, i requires 0 <= i < |statuses| => Diagnose(cfg, statuses[i]))
  }

  /** Absorbing extended positions and publishing statuses, all at once. */
  function Publish(cfg: Config, core: Core, exts: seq<ExtendedPositionFrame>, statuses: seq<StatusFrame>): Core {
    var cache := Absorb(core.cache, exts);
    core.(cache := cache, absorbed := core.absorbed + exts, consumed := core.consumed + statuses,
          states := core.states + Reports(cfg, statuses, cache),
          diagnostics := core.diagnostics + Diagnoses(cfg, statuses))
  }

  function DrainAll(cfg: Config, core: Core): Core {
    Publish(cfg, core.(statusQueue := [], extQueue := []), core.extQueue, core.statusQueue)
  }

  function Invoke(cfg: Config, core: Core, cb: Callback): Core
    requires Fits(cfg, cb)
  {
    var sent := match FrameFor(cfg, cb) case Some(f) => [f] case None => [];
    core.(attempts := core.attempts + sent, cache := if cb.FeedbackService? && !cb.extended then None else core.cache)
  }

  datatype Event = Deliver(item: Item) | Drain | Call(callback: Callback)

  predicate Allowed(cfg: Config, e: Event) { e.Call? ==> Fits(cfg, e.callback) }

  function Apply(cfg: Config, core: Core, e: Event): Core
    requires Allowed(cfg, e)
  {
    match e
    case Deliver(item) => Push(core, item)
    case Drain => DrainAll(cfg, core)
    case Call(cb) => Invoke(cfg, core, cb)
  }

  predicate AllAllowed(cfg: Config, events: seq<Event>) {
    forall e | e in events :: Allowed(cfg, e)
  }

  /** A run of the atomic node from its initial state. */
  function Replay(cfg: Config, events: seq<Event>): Core
    requires AllAllowed(cfg, events)
  {
    if events == [] then EMPTY
    else
      var n := |events| - 1;
      Apply(cfg, Replay(cfg, events[..n]), events[n])
  }
}
