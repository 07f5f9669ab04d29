/** The node as two threads that interleave at every access to shared state.
    The RX thread receives, decodes, locks, and pushes; the executor locks, swaps the status queue,
    swaps the extended-position queue and unlocks, absorbs one extended position at a time, and
    publishes one message at a time. Callbacks run only while the executor is idle. */
module Steps {
  import opened Options
  import opened Wire
  import opened CanSocket
  import opened Protocol
  import opened Messages
  import opened Atomic

  datatype Thread = RxThread | Executor

  datatype RxPhase =
    | Polling
    | Received(frame: CanFrame)
    | Decoded(item: Item)
    | Locked(item: Item)

  datatype ExecutorPhase =
    | Idle
    | Holding
    | HalfSwapped(swapped: seq<StatusFrame>)
    | Draining(exts: seq<ExtendedPositionFrame>, statuses: seq<StatusFrame>)
    | Mirroring(status: StatusFrame, rest: seq<StatusFrame>)

  /** `mutex` is the thread that holds rx_queue_mutex_; `received` the frames RX was given so far. */
  datatype State = State(core: Core, mutex: Option<Thread>, rx: RxPhase, exec: ExecutorPhase, received: seq<CanFrame>)

  const INIT := State(EMPTY, None, Polling, Idle, [])

  datatype Action =
    | RxReceive(raw: RawFrame)
    | RxDecode
    | RxLock
    | RxPushUnlock
    | ExecLock
    | ExecSwapStatuses
    | ExecSwapExtsUnlock
    | ExecAbsorb
    | ExecPublishState
    | ExecPublishDiagnostic
    | ExecReturn
    | ExecCall(callback: Callback, sendOk: bool)

  predicate Enabled(cfg: Config, s: State, a: Action) {
    match a
    case RxReceive(_) => s.rx.Polling?
    case RxDecode => s.rx.Received?
    case RxLock => s.rx.Decoded? && s.mutex.None?
    case RxPushUnlock => s.rx.Locked?
    case ExecLock => s.exec.Idle? && s.mutex.None?
    case ExecSwapStatuses => s.exec.Holding?
    case ExecSwapExtsUnlock => s.exec.HalfSwapped?
    case ExecAbsorb => s.exec.Draining? && s.exec.exts != []
    case ExecPublishState => s.exec.Draining? && s.exec.exts == [] && s.exec.statuses != []
    case ExecPublishDiagnostic => s.exec.Mirroring?
    case ExecReturn => s.exec.Draining? && s.exec.exts == [] && s.exec.statuses == []
    case ExecCall(cb, _) => s.exec.Idle? && Fits(cfg, cb)
  }

  function Next(cfg: Config, s: State, a: Action): State
    requires Enabled(cfg, s, a)
  {
    var core := s.core;
    match a
    case RxReceive(raw) =>
      (match FromRaw(raw, FRESH)
       case None => s
       case Some(frame) => s.(rx := Received(frame), received := s.received + [frame]))
    case RxDecode =>
      (match Decode(s.rx.frame, cfg.canId)
       case None => s.(rx := Polling)
       case Some(item) => s.(rx := Decoded(item)))
    case RxLock => s.(rx := Locked(s.rx.item), mutex := Some(RxThread))
    case RxPushUnlock => s.(core := Push(core, s.rx.item), rx := Polling, mutex := None)
    case ExecLock => s.(exec := Holding, mutex := Some(Executor))
    case ExecSwapStatuses => s.(core := core.(statusQueue := []), exec := HalfSwapped(core.statusQueue))
    case ExecSwapExtsUnlock =>
      s.(core := core.(extQueue := []), exec := Draining(core.extQueue, s.exec.swapped), mutex := None)
    case ExecAbsorb =>
      var ext := s.exec.exts[0];
      s.(core := core.(cache := Some(ext.positionDeg), absorbed := core.absorbed + [ext]),
         exec := Draining(s.exec.exts[1..], s.exec.statuses))
    case ExecPublishState =>
      var status := s.exec.statuses[0];
      s.(core := core.(consumed := core.consumed + [status], states := core.states + [Report(cfg, status, core.cache)]),
         exec := Mirroring(status, s.exec.statuses[1..]))
    case ExecPublishDiagnostic =>
      s.(core := core.(diagnostics := core.diagnostics + [Diagnose(cfg, s.exec.status)]),
         exec := Draining([], s.exec.rest))
    case ExecReturn => s.(exec := Idle)
    case ExecCall(cb, _) => s.(core := Invoke(cfg, core, cb))
  }

  /** The state after a sequence of actions, or None if some action was not enabled. */
  function Run(cfg: Config, start: State, acts: seq<Action>): Option<State> {
    if acts == [] then Some(start)
    else
      var n := |acts| - 1;
      match Run(cfg, start, acts[..n])
      case None => None
      case Some(s) => if Enabled(cfg, s, acts[n]) then Some(Next(cfg, s, acts[n])) else None
  }

  ghost predicate Reaches(cfg: Config, acts: seq<Action>, s: State) {
    Run(cfg, INIT, acts) == Some(s)
  }

  lemma RunSnoc(cfg: Config, start: State, acts: seq<Action>, a: Action)
    ensures Run(cfg, start, acts + [a]) ==
            match Run(cfg, start, acts)
            case None => None
            case Some(s) => if Enabled(cfg, s, a) then Some(Next(cfg, s, a)) else None
  {
    assert (acts + [a])[..|acts|] == acts;
  }

  lemma {:induction false} RunConcat(cfg: Config, start: State, a: seq<Action>, b: seq<Action>)
    requires Run(cfg, start, a).Some?
    ensures Run(cfg, start, a + b) == Run(cfg, Run(cfg, start, a).value, b)
  {
    if b == [] {
      assert a + b == a;
    } else {
      var before, x := b[..|b| - 1], b[|b| - 1];
      assert a + b == a + before + [x];
      RunConcat(cfg, start, a, before);
      RunSnoc(cfg, start, a + before, x);
    }
  }

  // ---- mutual exclusion ----

  /** Who holds the mutex is visible in the threads' phases, and nothing can reach the status queue
      between the two swaps. */
  ghost predicate Exclusive(s: State) {
    && (s.rx.Locked? <==> s.mutex == Some(RxThread))
    && (s.exec.Holding? || s.exec.HalfSwapped? <==> s.mutex == Some(Executor))
    && (s.exec.HalfSwapped? ==> s.core.statusQueue == [])
  }

  lemma ExclusiveStep(cfg: Config, s: State, a: Action)
    requires Exclusive(s) && Enabled(cfg, s, a)
    ensures Exclusive(Next(cfg, s, a))
  {
  }

  lemma {:induction false} ExclusiveRun(cfg: Config, start: State, acts: seq<Action>)
    requires Exclusive(start) && Run(cfg, start, acts).Some?
    ensures Exclusive(Run(cfg, start, acts).value)
  {
    if acts != [] {
      var n := |acts| - 1;
      ExclusiveRun(cfg, start, acts[..n]);
      ExclusiveStep(cfg, Run(cfg, start, acts[..n]).value, acts[n]);
    }
  }

  /** The two threads are never inside the critical section together. */
  lemma MutualExclusion(cfg: Config, acts: seq<Action>, s: State)
    requires Reaches(cfg, acts, s)
    ensures !(s.rx.Locked? && (s.exec.Holding? || s.exec.HalfSwapped?))
    ensures s.exec.HalfSwapped? ==> s.core.statusQueue == []
  {
    ExclusiveRun(cfg, INIT, acts);
  }
}
