/** Falling back to the status frame's position after the extended frame is disabled. */
module Fallback {
  import opened Options
  import opened Wire
  import opened CanSocket
  import opened Protocol
  import opened Messages
  import opened Atomic
  import opened Steps
  import opened History
  import opened Schedules

  predicate CarriesExt(cfg: Config, raw: RawFrame) {
    var f := FromRaw(raw, FRESH);
    f.Some? && DecodeExtendedPositionFrame(f.value, cfg.canId).Some?
  }

  /** No frame received during these actions is an extended-position frame of this node. */
  ghost predicate NoExtReceived(cfg: Config, acts: seq<Action>) {
    forall a | a in acts && a.RxReceive? :: !CarriesExt(cfg, a.raw)
  }

  /** Neither the queue nor RX's hand holds an extended position. */
  predicate NoExtPending(cfg: Config, s: State) {
    s.core.extQueue == [] && HandExt(cfg.canId, s.rx) == []
  }

  /** From the n-th publication on, every state carries its own status frame's position. */
  ghost predicate AllFallBack(cfg: Config, n: nat, s: State) {
    && |s.core.states| == |s.core.consumed|
    && forall i | n <= i < |s.core.states| :: s.core.states[i] == Report(cfg, s.core.consumed[i], None)
  }

  function Disable(single: bool, ok: bool): Action {
    ExecCall(FeedbackService(false, single), ok)
  }

  /** However the run continues without extended frames, later publications fall back. */
  ghost predicate FallsBack(cfg: Config, s: State) {
    forall acts :: NoExtReceived(cfg, acts) && Run(cfg, s, acts).Some? ==>
      AllFallBack(cfg, |s.core.states|, Run(cfg, s, acts).value)
  }

  ghost predicate Cleared(cfg: Config, s: State) {
    s.core.cache.None? && NoExtPending(cfg, s) && PendingExts(s.exec) == []
  }

  lemma ClearedStep(cfg: Config, s: State, a: Action)
    requires Cleared(cfg, s) && Enabled(cfg, s, a) && (a.RxReceive? ==> !CarriesExt(cfg, a.raw))
    ensures Cleared(cfg, Next(cfg, s, a))
  {
  }

  lemma FallBackStep(cfg: Config, s: State, a: Action, n: nat)
    requires s.core.cache.None? && Enabled(cfg, s, a) && AllFallBack(cfg, n, s)
    ensures AllFallBack(cfg, n, Next(cfg, s, a))
  {
  }

  lemma {:induction false} ClearedRun(cfg: Config, s: State, acts: seq<Action>)
    requires Cleared(cfg, s) && |s.core.states| == |s.core.consumed|
    requires NoExtReceived(cfg, acts) && Run(cfg, s, acts).Some?
    ensures Cleared(cfg, Run(cfg, s, acts).value)
    ensures AllFallBack(cfg, |s.core.states|, Run(cfg, s, acts).value)
  {
    if acts != [] {
      var n := |acts| - 1;
      ClearedRun(cfg, s, acts[..n]);
      assert acts[n] in acts;
      ClearedStep(cfg, Run(cfg, s, acts[..n]).value, acts[n]);
      FallBackStep(cfg, Run(cfg, s, acts[..n]).value, acts[n], |s.core.states|);
    }
  }

  /** A frame any motor may send: a status frame of all zeros. */
  function ZeroStatus(cfg: Config): CanFrame {
    CanFrame(BuildCanId(FUNC_ID_STATUS, cfg.canId), 8, ZEROS)
  }

  lemma ZeroStatusArrives(cfg: Config)
    ensures FromRaw(ToRaw(ZeroStatus(cfg)), FRESH) == Some(ZeroStatus(cfg))
    ensures Decode(ZeroStatus(cfg), cfg.canId).Some? && Decode(ZeroStatus(cfg), cfg.canId).value.StatusItem?
    ensures !CarriesExt(cfg, ToRaw(ZeroStatus(cfg)))
  {
    CanIdInjective(FUNC_ID_STATUS, cfg.canId, FUNC_ID_STATUS, cfg.canId);
    FramingIdentity(ZeroStatus(cfg));
    FeedbackIsUnambiguous(ZeroStatus(cfg), cfg.canId, cfg.canId);
  }

  /** A pending extended position comes back: RX finishes, one status frame arrives, one drain runs. */
  lemma Repopulates(cfg: Config, s: State) returns (acts: seq<Action>)
    requires Exclusive(s) && s.exec.Idle? && !NoExtPending(cfg, s)
    ensures NoExtReceived(cfg, acts) && Run(cfg, s, acts).Some?
    ensures !AllFallBack(cfg, |s.core.states|, Run(cfg, s, acts).value)
    ensures Run(cfg, s, acts).value.core.cache.Some?
  {
    HandHasExt(cfg, s);
    var a := SettleRx(cfg, s);
    var t := Run(cfg, s, a).value;
    var b := StatusThenDrain(cfg, t);
    RunConcat(cfg, s, a, b);
    acts := a + b;
  }

  lemma StatusThenDrain(cfg: Config, t: State) returns (acts: seq<Action>)
    requires t.exec.Idle? && t.rx.Polling? && t.mutex.None? && t.core.extQueue != []
    ensures NoExtReceived(cfg, acts) && Run(cfg, t, acts).Some?
    ensures !AllFallBack(cfg, |t.core.states|, Run(cfg, t, acts).value)
    ensures Run(cfg, t, acts).value.core.cache.Some?
  {
    var frame := ZeroStatus(cfg);
    ZeroStatusArrives(cfg);
    var b := RxSchedule(cfg, t, ToRaw(frame));
    PushOne(t.core, Decode(frame, cfg.canId).value);
    var u := Run(cfg, t, b).value;
    var c := DrainSchedule(cfg, u);
    RunConcat(cfg, t, b, c);
    acts := b + c;
    DrainShowsExt(cfg, u.core);
  }

  lemma DrainShowsExt(cfg: Config, core: Core)
    requires core.statusQueue != [] && core.extQueue != []
    ensures var after := DrainAll(cfg, core);
      && after.cache.Some? && |after.states| > |core.states| && after.states[|core.states|].extendedPositionValid
  {
  }

  lemma HandHasExt(cfg: Config, s: State)
    ensures PushAll(s.core, Hand(cfg.canId, s.rx)).states == s.core.states
    ensures PushAll(s.core, Hand(cfg.canId, s.rx)).extQueue == s.core.extQueue + HandExt(cfg.canId, s.rx)
  {
  }

  /** Fallback, exactly: after a call that disables the extended frame, whether or not its send
      succeeded, every publication of every continuation without extended frames uses the status
      position if and only if no extended position was queued or in RX's hand when the call ran. */
  lemma FallbackExact(cfg: Config, before: seq<Action>, s: State, single: bool, ok: bool)
    requires Reaches(cfg, before, s) && s.exec.Idle?
    ensures Enabled(cfg, s, Disable(single, ok))
    ensures FallsBack(cfg, Next(cfg, s, Disable(single, ok))) <==> NoExtPending(cfg, s)
  {
    var t := Next(cfg, s, Disable(single, ok));
    ExclusiveRun(cfg, INIT, before);
    Pairing(cfg, before, s);
    if NoExtPending(cfg, s) {
      forall acts | NoExtReceived(cfg, acts) && Run(cfg, t, acts).Some?
        ensures AllFallBack(cfg, |t.core.states|, Run(cfg, t, acts).value)
      {
        ClearedRun(cfg, t, acts);
      }
    } else {
      var acts := Repopulates(cfg, t);
    }
  }

  /** The condition is not vacuous: a run reaches a disabling call with an extended position queued. */
  lemma QueuedExtReachable(cfg: Config) returns (acts: seq<Action>, s: State)
    ensures Reaches(cfg, acts, s) && s.exec.Idle? && !NoExtPending(cfg, s)
  {
    var frame := CanFrame(BuildCanId(FUNC_ID_EXT_POSITION, cfg.canId), 4, ZEROS);
    CanIdInjective(FUNC_ID_EXT_POSITION, cfg.canId, FUNC_ID_STATUS, cfg.canId);
    FramingIdentity(frame);
    acts := RxSchedule(cfg, INIT, ToRaw(frame));
    s := Run(cfg, INIT, acts).value;
    assert Hand(cfg.canId, Received(frame))[..0] == [];
  }
}
