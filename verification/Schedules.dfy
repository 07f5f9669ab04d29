/** Schedules that carry one activity of one thread to its end without interference. */
module Schedules {
  import opened Numeric
  import opened Options
  import opened Wire
  import opened CanSocket
  import opened Protocol
  import opened Messages
  import opened Atomic
  import opened Steps
  import opened Reduction

  predicate ByRx(a: Action) {
    a.RxReceive? || a.RxDecode? || a.RxLock? || a.RxPushUnlock?
  }

  /** Steps of a drain only: no callback, and nothing by the RX thread. */
  predicate DrainSteps(acts: seq<Action>) {
    forall a | a in acts :: !ByRx(a) && !a.ExecCall?
  }

  /** Steps by which RX deals with the frame it holds. */
  predicate RxSteps(acts: seq<Action>) {
    forall a | a in acts :: ByRx(a) && !a.RxReceive?
  }

  lemma RunCons(cfg: Config, s: State, a: Action, acts: seq<Action>)
    requires Enabled(cfg, s, a)
    ensures Run(cfg, s, [a] + acts) == Run(cfg, Next(cfg, s, a), acts)
  {
    assert [a][..0] == [];
    assert Run(cfg, s, [a]) == Some(Next(cfg, s, a));
    RunConcat(cfg, s, [a], acts);
  }

  /** From the second swap on, the rest of a drain. */
  lemma FinishDrain(cfg: Config, s: State) returns (acts: seq<Action>)
    requires s.exec.Draining?
    ensures DrainSteps(acts)
    ensures Run(cfg, s, acts) == Some(s.(core := Publish(cfg, s.core, s.exec.exts, s.exec.statuses), exec := Idle))
    decreases |s.exec.exts| + |s.exec.statuses|
  {
    if s.exec.exts != [] {
      var rest := FinishDrain(cfg, Next(cfg, s, ExecAbsorb));
      acts := [ExecAbsorb] + rest;
      RunCons(cfg, s, ExecAbsorb, rest);
      PublishAfterAbsorb(cfg, s.core, s.exec.exts, s.exec.statuses);
    } else if s.exec.statuses != [] {
      var t := Next(cfg, s, ExecPublishState);
      var rest := FinishDrain(cfg, Next(cfg, t, ExecPublishDiagnostic));
      acts := [ExecPublishState] + ([ExecPublishDiagnostic] + rest);
      RunCons(cfg, t, ExecPublishDiagnostic, rest);
      RunCons(cfg, s, ExecPublishState, [ExecPublishDiagnostic] + rest);
      PublishAfterOne(cfg, s.core, s.exec.statuses);
    } else {
      acts := [ExecReturn] + [];
      RunCons(cfg, s, ExecReturn, []);
      PublishNothing(cfg, s.core);
    }
  }

  /** An undisturbed drain callback has the effect of the atomic drain. */
  lemma DrainSchedule(cfg: Config, s: State) returns (acts: seq<Action>)
    requires s.exec.Idle? && s.mutex.None?
    ensures DrainSteps(acts)
    ensures Run(cfg, s, acts) == Some(s.(core := DrainAll(cfg, s.core)))
  {
    var s1 := Next(cfg, s, ExecLock);
    var s2 := Next(cfg, s1, ExecSwapStatuses);
    var s3 := Next(cfg, s2, ExecSwapExtsUnlock);
    var rest := FinishDrain(cfg, s3);
    acts := [ExecLock] + ([ExecSwapStatuses] + ([ExecSwapExtsUnlock] + rest));
    RunCons(cfg, s2, ExecSwapExtsUnlock, rest);
    RunCons(cfg, s1, ExecSwapStatuses, [ExecSwapExtsUnlock] + rest);
    RunCons(cfg, s, ExecLock, [ExecSwapStatuses] + ([ExecSwapExtsUnlock] + rest));
    assert s3.(core := Publish(cfg, s3.core, s3.exec.exts, s3.exec.statuses), exec := Idle)
        == s.(core := DrainAll(cfg, s.core));
  }

  function PushAll(core: Core, items: seq<Item>): Core {
    if items == [] then core else Push(PushAll(core, items[..|items| - 1]), items[|items| - 1])
  }

  /** The item in RX's hand, if there is one. */
  function Hand(canId: uint8, rx: RxPhase): seq<Item> {
    match rx
    case Polling => []
    case Received(frame) => (match Decode(frame, canId) case Some(item) => [item] case None => [])
    case Decoded(item) => [item]
    case Locked(item) => [item]
  }

  /** With the executor idle, RX can always finish with the frame it holds. */
  lemma SettleRx(cfg: Config, s: State) returns (acts: seq<Action>)
    requires Exclusive(s) && s.exec.Idle?
    ensures RxSteps(acts)
    ensures Run(cfg, s, acts) == Some(s.(core := PushAll(s.core, Hand(cfg.canId, s.rx)), rx := Polling, mutex := None))
    decreases if s.rx.Polling? then 0 else if s.rx.Locked? then 1 else if s.rx.Decoded? then 2 else 3
  {
    if !s.rx.Locked? {
      FreeMutex(s);
    }
    if s.rx.Polling? {
      acts := [];
    } else {
      var a := if s.rx.Received? then RxDecode else if s.rx.Decoded? then RxLock else RxPushUnlock;
      PushOne(s.core, if s.rx.Locked? then s.rx.item else ExtendedItem(ExtendedPositionFrame(0.0)));
      ExclusiveStep(cfg, s, a);
      var rest := SettleRx(cfg, Next(cfg, s, a));
      acts := [a] + rest;
      RunCons(cfg, s, a, rest);
    }
  }

  lemma FreeMutex(s: State)
    requires Exclusive(s) && !s.rx.Locked? && !s.exec.Holding? && !s.exec.HalfSwapped?
    ensures s.mutex.None?
  {
    match s.mutex
    case None =>
    case Some(RxThread) =>
    case Some(Executor) =>
  }

  lemma PushOne(core: Core, item: Item)
    ensures PushAll(core, []) == core && PushAll(core, [item]) == Push(core, item)
  {
  }

  /** One undisturbed iteration of the RX loop, from its receive on, pushes what the frame decodes to. */
  lemma RxSchedule(cfg: Config, s: State, raw: RawFrame) returns (acts: seq<Action>)
    requires Exclusive(s) && s.exec.Idle? && s.rx.Polling?
    ensures acts != [] && acts[0] == RxReceive(raw) && RxSteps(acts[1..])
    ensures Run(cfg, s, acts) == Some(AfterFrame(cfg, s, raw))
  {
    var t := Next(cfg, s, RxReceive(raw));
    FreeMutex(s);
    ExclusiveStep(cfg, s, RxReceive(raw));
    var rest := SettleRx(cfg, t);
    acts := [RxReceive(raw)] + rest;
    RunCons(cfg, s, RxReceive(raw), rest);
    PushOne(s.core, ExtendedItem(ExtendedPositionFrame(0.0)));
    assert t.(core := PushAll(t.core, Hand(cfg.canId, t.rx)), rx := Polling, mutex := None) == AfterFrame(cfg, s, raw);
  }

  function AfterFrame(cfg: Config, s: State, raw: RawFrame): State {
    match FromRaw(raw, FRESH)
    case None => s
    case Some(frame) => s.(core := PushAll(s.core, Hand(cfg.canId, Received(frame))), received := s.received + [frame])
  }

  predicate CarriesItem(cfg: Config, frame: CanFrame, item: Item) {
    Decode(frame, cfg.canId) == Some(item) && frame.dlc <= 8
  }

  /** Deliveries that some frame on the bus can cause, drains, and well-defined callbacks. */
  ghost predicate Possible(cfg: Config, e: Event) {
    && Allowed(cfg, e)
    && (e.Deliver? ==> exists frame: CanFrame :: CarriesItem(cfg, frame, e.item))
  }

  /** The decoders look at no byte beyond dlc. */
  lemma DecodePrefix(f: CanFrame, g: CanFrame, canId: uint8)
    requires f.id == g.id && f.dlc == g.dlc <= 8 && f.data[..f.dlc] == g.data[..g.dlc]
    ensures Decode(f, canId) == Decode(g, canId)
  {
    assert forall i | 0 <= i < f.dlc :: f.data[i] == f.data[..f.dlc][i] && g.data[i] == g.data[..f.dlc][i];
    if f.dlc == 8 {
      assert f.data == g.data;
    } else if f.dlc >= 4 {
      assert GetInt32(f.data, 0) == GetInt32(g.data, 0);
    }
  }

  /** What a frame decodes to survives its trip over the bus. */
  lemma ItemArrives(cfg: Config, frame: CanFrame, item: Item)
    requires CarriesItem(cfg, frame, item)
    ensures FromRaw(ToRaw(frame), FRESH).Some?
    ensures Decode(FromRaw(ToRaw(frame), FRESH).value, cfg.canId) == Some(item)
  {
    CanIdInjective(FUNC_ID_STATUS, cfg.canId, FUNC_ID_EXT_POSITION, cfg.canId);
    FramingRoundTrip(frame);
    DecodePrefix(FromRaw(ToRaw(frame), FRESH).value, frame, cfg.canId);
  }
}
