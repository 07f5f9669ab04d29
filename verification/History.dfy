/** What every reachable state says about the frames received and the messages published. */
module History {
  import opened Numeric
  import opened Options
  import opened Sequences
  import opened Wire
  import opened Protocol
  import opened Messages
  import opened Atomic
  import opened Steps

  function StatusOf(canId: uint8): CanFrame -> seq<StatusFrame> {
    (frame: CanFrame) => match DecodeStatusFrame(frame, canId) case Some(s) => [s] case None => []
  }

  function ExtendedOf(canId: uint8): CanFrame -> seq<ExtendedPositionFrame> {
    (frame: CanFrame) => match DecodeExtendedPositionFrame(frame, canId) case Some(e) => [e] case None => []
  }

  /** The status frames among the frames received, decoded, in order. */
  function StatusesIn(canId: uint8, frames: seq<CanFrame>): seq<StatusFrame> {
    Gather(StatusOf(canId), frames)
  }

  function ExtendedIn(canId: uint8, frames: seq<CanFrame>): seq<ExtendedPositionFrame> {
    Gather(ExtendedOf(canId), frames)
  }

  function ItemStatus(item: Item): seq<StatusFrame> {
    if item.StatusItem? then [item.status] else []
  }

  function ItemExt(item: Item): seq<ExtendedPositionFrame> {
    if item.ExtendedItem? then [item.ext] else []
  }

  /** The status frame RX has in its hand, decoded or not. */
  function HandStatus(canId: uint8, rx: RxPhase): seq<StatusFrame> {
    match rx
    case Polling => []
    case Received(frame) => StatusOf(canId)(frame)
    case Decoded(item) => ItemStatus(item)
    case Locked(item) => ItemStatus(item)
  }

  function HandExt(canId: uint8, rx: RxPhase): seq<ExtendedPositionFrame> {
    match rx
    case Polling => []
    case Received(frame) => ExtendedOf(canId)(frame)
    case Decoded(item) => ItemExt(item)
    case Locked(item) => ItemExt(item)
  }

  /** Status frames drained but not yet published. */
  function PendingStatuses(exec: ExecutorPhase): seq<StatusFrame> {
    match exec
    case HalfSwapped(swapped) => swapped
    case Draining(_, statuses) => statuses
    case Mirroring(_, rest) => rest
    case _ => []
  }

  function PendingExts(exec: ExecutorPhase): seq<ExtendedPositionFrame> {
    if exec.Draining? then exec.exts else []
  }

  /** Published, drained, queued and in-hand statuses, in this order. */
  function StatusLine(canId: uint8, s: State): seq<StatusFrame> {
    s.core.consumed + PendingStatuses(s.exec) + s.core.statusQueue + HandStatus(canId, s.rx)
  }

  function ExtLine(canId: uint8, s: State): seq<ExtendedPositionFrame> {
    s.core.absorbed + PendingExts(s.exec) + s.core.extQueue + HandExt(canId, s.rx)
  }

  ghost predicate Conserved(cfg: Config, s: State) {
    && StatusLine(cfg.canId, s) == StatusesIn(cfg.canId, s.received)
    && ExtLine(cfg.canId, s) == ExtendedIn(cfg.canId, s.received)
  }

  /** Decoding changes what is in RX's hand in form only. */
  lemma HandDecoded(frame: CanFrame, canId: uint8)
    ensures var rx := match Decode(frame, canId) case None => Polling case Some(item) => Decoded(item);
      && HandStatus(canId, rx) == HandStatus(canId, Received(frame))
      && HandExt(canId, rx) == HandExt(canId, Received(frame))
  {
    FeedbackIsUnambiguous(frame, canId, canId);
  }

  /** Only receiving a frame changes the line of statuses. */
  lemma StatusLineStep(cfg: Config, s: State, a: Action)
    requires Exclusive(s) && Enabled(cfg, s, a) && !a.RxReceive?
    ensures StatusLine(cfg.canId, Next(cfg, s, a)) == StatusLine(cfg.canId, s)
  {
    var t := Next(cfg, s, a);
    match a
    case RxDecode => HandDecoded(s.rx.frame, cfg.canId);
    case RxPushUnlock =>
      assert s.core.statusQueue + ItemStatus(s.rx.item) == t.core.statusQueue;
    case ExecSwapStatuses =>
      assert s.core.consumed + [] + s.core.statusQueue == t.core.consumed + t.exec.swapped + [];
    case ExecPublishState =>
      assert s.core.consumed + s.exec.statuses == t.core.consumed + t.exec.rest;
    case _ =>
  }

  lemma ExtLineStep(cfg: Config, s: State, a: Action)
    requires Exclusive(s) && Enabled(cfg, s, a) && !a.RxReceive?
    ensures ExtLine(cfg.canId, Next(cfg, s, a)) == ExtLine(cfg.canId, s)
  {
    var t := Next(cfg, s, a);
    match a
    case RxDecode => HandDecoded(s.rx.frame, cfg.canId);
    case RxPushUnlock =>
      assert s.core.extQueue + ItemExt(s.rx.item) == t.core.extQueue;
    case ExecSwapExtsUnlock =>
      assert s.core.absorbed + [] + s.core.extQueue == t.core.absorbed + t.exec.exts + [];
    case ExecAbsorb =>
      assert s.core.absorbed + s.exec.exts == t.core.absorbed + t.exec.exts;
    case _ =>
  }

  lemma ReceiveExtendsLines(cfg: Config, s: State, frame: CanFrame)
    requires s.rx.Polling? && Conserved(cfg, s)
    ensures Conserved(cfg, s.(rx := Received(frame), received := s.received + [frame]))
  {
  }

  lemma ConservedStep(cfg: Config, s: State, a: Action)
    requires Exclusive(s) && Conserved(cfg, s) && Enabled(cfg, s, a)
    ensures Conserved(cfg, Next(cfg, s, a))
  {
    var t := Next(cfg, s, a);
    if !a.RxReceive? {
      StatusLineStep(cfg, s, a);
      ExtLineStep(cfg, s, a);
    } else if t.rx.Received? {
      ReceiveExtendsLines(cfg, s, t.rx.frame);
    }
  }

  /** FIFO conservation: in every reachable state, the statuses published, those drained, those queued
      and the one in RX's hand are, in this order, exactly the status decodes of the frames received;
      likewise for extended positions. */
  lemma {:induction false} Conservation(cfg: Config, acts: seq<Action>, s: State)
    requires Reaches(cfg, acts, s)
    ensures Conserved(cfg, s)
  {
    if acts != [] {
      var n := |acts| - 1;
      var prev := Run(cfg, INIT, acts[..n]).value;
      Conservation(cfg, acts[..n], prev);
      ExclusiveRun(cfg, INIT, acts[..n]);
      ConservedStep(cfg, prev, acts[n]);
    }
  }

  // ---- pairing of states and diagnostics ----

  /** Statuses whose state is out but whose diagnostic is not. */
  function AwaitingDiagnostic(exec: ExecutorPhase): seq<StatusFrame> {
    if exec.Mirroring? then [exec.status] else []
  }

  /** A state message made from a status frame, with or without an extended position. */
  ghost predicate Reported(cfg: Config, m: MotorState, status: StatusFrame) {
    exists cache :: m == Report(cfg, status, cache)
  }

  ghost predicate Paired(cfg: Config, s: State) {
    && |s.core.states| == |s.core.consumed|
    && s.core.diagnostics + Diagnoses(cfg, AwaitingDiagnostic(s.exec)) == Diagnoses(cfg, s.core.consumed)
    && (forall i | 0 <= i < |s.core.states| :: Reported(cfg, s.core.states[i], s.core.consumed[i]))
  }

  lemma PairedStep(cfg: Config, s: State, a: Action)
    requires Paired(cfg, s) && Enabled(cfg, s, a)
    ensures Paired(cfg, Next(cfg, s, a))
  {
    var t := Next(cfg, s, a);
    match a
    case ExecPublishState =>
      var status := s.exec.statuses[0];
      assert Diagnoses(cfg, t.core.consumed) == Diagnoses(cfg, s.core.consumed) + [Diagnose(cfg, status)];
      assert s.core.diagnostics == Diagnoses(cfg, s.core.consumed);
    case ExecPublishDiagnostic =>
      assert t.core.diagnostics == Diagnoses(cfg, t.core.consumed);
    case _ =>
  }

  /** One state and one diagnostic per published status, in order; a diagnostic is outstanding only
      between the two publishes of one pair. */
  lemma {:induction false} Pairing(cfg: Config, acts: seq<Action>, s: State)
    requires Reaches(cfg, acts, s)
    ensures Paired(cfg, s)
    ensures |s.core.diagnostics| == |s.core.states| - (if s.exec.Mirroring? then 1 else 0)
  {
    if acts != [] {
      var n := |acts| - 1;
      var prev := Run(cfg, INIT, acts[..n]).value;
      Pairing(cfg, acts[..n], prev);
      PairedStep(cfg, prev, acts[n]);
    }
    assert |s.core.diagnostics + Diagnoses(cfg, AwaitingDiagnostic(s.exec))| == |Diagnoses(cfg, s.core.consumed)|;
  }

  // ---- the cache ----

  predicate AbsorbAt(acts: seq<Action>, m: int) {
    0 <= m < |acts| && acts[m].ExecAbsorb?
  }

  /** A set_feedback_config call that turns the extended position off. */
  predicate Disabling(a: Action) {
    a.ExecCall? && a.callback.FeedbackService? && !a.callback.extended
  }

  predicate DisableAt(acts: seq<Action>, k: int) {
    0 <= k < |acts| && Disabling(acts[k])
  }

  /** An absorption that no later disabling call has undone. */
  ghost predicate InForce(acts: seq<Action>, m: int) {
    AbsorbAt(acts, m) && forall k | m < k :: !DisableAt(acts, k)
  }

  ghost predicate SomeInForce(acts: seq<Action>) {
    exists m :: InForce(acts, m)
  }

  /** The cache is the extended position absorbed last if one is in force, and empty otherwise. */
  ghost predicate CacheFits(acts: seq<Action>, core: Core) {
    && (core.cache.Some? <==> SomeInForce(acts))
    && (core.cache.Some? ==> core.absorbed != [] && core.cache.value == core.absorbed[|core.absorbed| - 1].positionDeg)
  }

  lemma CacheFitsMore(cfg: Config, before: seq<Action>, s: State, a: Action)
    requires CacheFits(before, s.core) && Enabled(cfg, s, a)
    ensures CacheFits(before + [a], Next(cfg, s, a).core)
  {
    CacheStep(cfg, s, a);
    InForceStep(before, a);
  }

  /** At every moment, mid-drain included, the cache is the extended position absorbed last if that was
      after the latest disabling call, and empty otherwise. */
  lemma {:induction false} CacheExact(cfg: Config, acts: seq<Action>, s: State)
    requires Reaches(cfg, acts, s)
    ensures CacheFits(acts, s.core)
  {
    if acts == [] {
      assert forall m :: !AbsorbAt(acts, m);
    } else {
      var before, a := acts[..|acts| - 1], acts[|acts| - 1];
      var prev := Run(cfg, INIT, before).value;
      CacheExact(cfg, before, prev);
      CacheFitsMore(cfg, before, prev, a);
      assert acts == before + [a] && s == Next(cfg, prev, a);
    }
  }

  lemma InForceStep(before: seq<Action>, a: Action)
    ensures SomeInForce(before + [a]) <==> a.ExecAbsorb? || (!Disabling(a) && SomeInForce(before))
  {
    var acts, n := before + [a], |before|;
    assert forall j | j < n :: AbsorbAt(acts, j) == AbsorbAt(before, j) && DisableAt(acts, j) == DisableAt(before, j);
    if AbsorbAt(acts, n) {
      assert InForce(acts, n);
    } else if DisableAt(acts, n) {
      assert forall m :: !InForce(acts, m);
    } else {
      assert forall m :: InForce(acts, m) == InForce(before, m);
    }
  }

  lemma CacheStep(cfg: Config, s: State, a: Action)
    requires Enabled(cfg, s, a)
    ensures var t := Next(cfg, s, a);
      if a.ExecAbsorb? then
        t.core.absorbed != [] && t.core.cache == Some(t.core.absorbed[|t.core.absorbed| - 1].positionDeg)
      else t.core.absorbed == s.core.absorbed
           && t.core.cache == if Disabling(a) then None else s.core.cache
  {
  }
}
