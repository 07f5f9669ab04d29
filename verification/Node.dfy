/** MotorDriverNode as an object: its queues and cache are fields that the RX loop, the drain and the
    callbacks update. Publications and send attempts are recorded in ghost histories. Each method is
    proved against the atomic node; interference between the RX thread and the executor is the subject
    of the step system. */
module Node {
  import opened Numeric
  import opened Options
  import opened Sequences
  import opened Wire
  import opened CanSocket
  import opened Mit
  import opened Protocol
  import opened Units
  import opened Messages
  import opened Atomic
  import opened Steps
  import opened Schedules

  /** The outcome of poll and read in one iteration of the RX loop. */
  datatype Poll = Poll(ready: int, n: int, raw: RawFrame)

  function Arrived(p: Poll): Option<CanFrame> {
    if p.ready > 0 && p.n == SIZEOF_CAN_FRAME then FromRaw(p.raw, FRESH) else None
  }

  /** What one iteration of the RX loop pushes. */
  function Pushed(canId: uint8): Poll -> seq<Item> {
    (p: Poll) => match Arrived(p) case None => [] case Some(frame) => Hand(canId, Received(frame))
  }

  class MotorDriverNode {
    const cfg: Config
    var statusQueue: seq<StatusFrame>
    var extPositionQueue: seq<ExtendedPositionFrame>
    var lastExtendedPositionDeg: Option<real>
    ghost var absorbed: seq<ExtendedPositionFrame>
    ghost var consumed: seq<StatusFrame>
    ghost var states: seq<MotorState>
    ghost var diagnostics: seq<Diagnostic>
    ghost var attempts: seq<CanFrame>

    ghost function View(): Core
      reads this
    {
      Core(statusQueue, extPositionQueue, lastExtendedPositionDeg, absorbed, consumed, states, diagnostics, attempts)
    }

    constructor (cfg: Config)
      ensures this.cfg == cfg && View() == EMPTY
    {
      this.cfg := cfg;
      statusQueue, extPositionQueue, lastExtendedPositionDeg := [], [], None;
      absorbed, consumed, states, diagnostics, attempts := [], [], [], [], [];
    }

    /** Hands a frame to the socket; `written` is the outcome of the write call. */
    method SendFrame(frame: CanFrame, written: int) returns (ok: bool)
      requires frame.dlc <= 8
      modifies this`attempts
      ensures attempts == old(attempts) + [frame]
      ensures ok <==> written == SIZEOF_CAN_FRAME
    {
      var raw;
      raw, ok := Send(frame, written);
      attempts := attempts + [frame];
    }

    /** The switch over the control mode: the frame of the command, or none. */
    method PackCommand(msg: MotorCommand) returns (frame: Option<CanFrame>)
      requires Fits(cfg, Command(msg))
      ensures frame == FrameFor(cfg, Command(msg))
    {
      var f: CanFrame;
      if IsWordMode(msg.mode) {
        f := PackWordCommand(msg);
      } else if msg.mode == MODE_POSITION_VELOCITY {
        f := PackPositionVelocity(cfg.canId, RadToDeg(cfg.Signed(msg.position)),
                                  RadPerSecToErpm(cfg.Signed(msg.velocity), cfg.spec),
                                  RadPerSecToErpm(cfg.Signed(msg.acceleration), cfg.spec));
      } else if msg.mode == MODE_MIT {
        var setpoint := Setpoint(cfg.Signed(msg.position), cfg.Signed(msg.mitVelocity), msg.kp, msg.kd,
                                 cfg.Signed(msg.mitTorque));
        f := PackMit(cfg.canId, setpoint, cfg.MitLimits());
      } else {
        return None;
      }
      return Some(f);
    }

    /** The five cases of the switch that send one signed word. */
    method PackWordCommand(msg: MotorCommand) returns (f: CanFrame)
      requires Fits(cfg, Command(msg)) && IsWordMode(msg.mode)
      ensures Some(f) == FrameFor(cfg, Command(msg))
    {
      if msg.mode == MODE_DUTY {
        f := PackDuty(cfg.canId, cfg.Signed(msg.duty));
      } else if msg.mode == MODE_CURRENT {
        f := PackCurrent(cfg.canId, cfg.Signed(msg.current));
      } else if msg.mode == MODE_CURRENT_BRAKE {
        f := PackCurrentBrake(cfg.canId, msg.current);
      } else if msg.mode == MODE_VELOCITY {
        f := PackVelocityErpm(cfg.canId, RadPerSecToErpm(cfg.Signed(msg.velocity), cfg.spec));
      } else {
        f := PackPositionDeg(cfg.canId, RadToDeg(cfg.Signed(msg.position)));
      }
    }

    /** Subscription callback: one frame, or none for an unrecognised mode. */
    method OnCommand(msg: MotorCommand, written: int)
      requires Fits(cfg, Command(msg))
      modifies this
      ensures View() == Invoke(cfg, old(View()), Command(msg))
      ensures lastExtendedPositionDeg == old(lastExtendedPositionDeg)
    {
      var frame := PackCommand(msg);
      if frame.None? {
        assert attempts + [] == attempts;
        return;
      }
      FrameHeader(cfg, Command(msg));
      var ok := SendFrame(frame.value, written);
    }

    method OnSetOrigin(permanent: bool, written: int) returns (success: bool, message: string)
      modifies this
      ensures View() == Invoke(cfg, old(View()), OriginService(permanent))
      ensures lastExtendedPositionDeg == old(lastExtendedPositionDeg)
      ensures success <==> written == SIZEOF_CAN_FRAME
      ensures message == if success then "origin set command sent" else "CAN send failed"
    {
      var frame := PackSetOrigin(cfg.canId, permanent);
      success := SendFrame(frame, written);
      message := if success then "origin set command sent" else "CAN send failed";
    }

    /** The cache is cleared on a disabling request whether or not the send succeeded. */
    method OnSetFeedbackConfig(extended: bool, singleTurn: bool, written: int) returns (success: bool, message: string)
      modifies this
      ensures View() == Invoke(cfg, old(View()), FeedbackService(extended, singleTurn))
      ensures lastExtendedPositionDeg == if extended then old(lastExtendedPositionDeg) else None
      ensures success <==> written == SIZEOF_CAN_FRAME
      ensures message == if success then "feedback config command sent" else "CAN send failed"
    {
      var frame := PackFeedbackConfig(cfg.canId, extended, singleTurn);
      success := SendFrame(frame, written);
      message := if success then "feedback config command sent" else "CAN send failed";
      if !extended {
        lastExtendedPositionDeg := None;
      }
    }

    method OnDisable(written: int) returns (success: bool, message: string)
      modifies this
      ensures View() == Invoke(cfg, old(View()), DisableService)
      ensures lastExtendedPositionDeg == old(lastExtendedPositionDeg)
      ensures success <==> written == SIZEOF_CAN_FRAME
      ensures message == if success then "disable command sent" else "CAN send failed"
    {
      var frame := PackDisable(cfg.canId);
      success := SendFrame(frame, written);
      message := if success then "disable command sent" else "CAN send failed";
    }

    /** One iteration of the RX loop: receive into a fresh frame, try the decoders in turn, push. */
    method RxIteration(p: Poll)
      modifies this`statusQueue, this`extPositionQueue
      ensures View() == PushAll(old(View()), Pushed(cfg.canId)(p))
    {
      PushOne(View(), ExtendedItem(ExtendedPositionFrame(0.0)));
      var frame := new FrameSlot();
      FromRawExact(p.raw, FRESH);
      var got := Receive(frame, p.ready, p.n, p.raw);
      if !got {
        return;
      }
      var received := CanFrame(frame.id, frame.dlc, frame.data[..]);
      var status := DecodeStatusFrame(received, cfg.canId);
      if status.Some? {
        PushOne(View(), StatusItem(status.value));
        statusQueue := statusQueue + [status.value];
        return;
      }
      var ext := DecodeExtendedPositionFrame(received, cfg.canId);
      if ext.Some? {
        PushOne(View(), ExtendedItem(ext.value));
        extPositionQueue := extPositionQueue + [ext.value];
        return;
      }
    }

    /** The RX loop until its running flag is cleared; `polls` are the outcomes of its iterations. */
    method RxThreadMain(polls: seq<Poll>)
      modifies this`statusQueue, this`extPositionQueue
      ensures View() == PushAll(old(View()), Gather(Pushed(cfg.canId), polls))
    {
      ghost var start := View();
      var i := 0;
      while i < |polls|
        invariant 0 <= i <= |polls|
        invariant View() == PushAll(start, Gather(Pushed(cfg.canId), polls[..i]))
      {
        RxIteration(polls[i]);
        PushNext(start, Pushed(cfg.canId), polls, i);
        i := i + 1;
      }
      assert polls[..|polls|] == polls;
    }

    /** The state and the diagnostic for one status frame, as the publishing loop fills them in. */
    method BuildMessages(status: StatusFrame) returns (message: MotorState, diagnostic: Diagnostic)
      ensures message == Report(cfg, status, lastExtendedPositionDeg)
      ensures diagnostic == Diagnose(cfg, status)
    {
      var positionDeg := lastExtendedPositionDeg.GetOr(status.positionDeg);
      var current := cfg.Signed(status.currentA);
      message := MotorState(cfg.Signed(DegToRad(positionDeg)),
                            cfg.Signed(ErpmToRadPerSec(status.speedErpm, cfg.spec)),
                            current, current * cfg.spec.torqueCoefficient,
                            status.temperatureC, status.errorCode, FaultCodeToString(status.errorCode),
                            lastExtendedPositionDeg.Some?);
      diagnostic := if status.errorCode == 0 then Diagnostic(cfg.canId, false, "no fault")
                    else Diagnostic(cfg.canId, true, message.errorText);
    }

    /** The drain callback: swap both queues, absorb the extended positions, publish the statuses. */
    method DrainRxQueueAndPublish()
      modifies this
      ensures View() == DrainAll(cfg, old(View()))
    {
      var statuses, exts := statusQueue, extPositionQueue;
      statusQueue, extPositionQueue := [], [];
      ghost var before := View();

      for k := 0 to |exts|
        invariant View() == before.(cache := Absorb(before.cache, exts[..k]), absorbed := before.absorbed + exts[..k])
      {
        lastExtendedPositionDeg := Some(exts[k].positionDeg);
        absorbed := absorbed + [exts[k]];
        assert exts[..k + 1] == exts[..k] + [exts[k]];
      }
      assert exts[..|exts|] == exts;

      ghost var cache := lastExtendedPositionDeg;
      for k := 0 to |statuses|
        invariant View() == before.(cache := cache, absorbed := before.absorbed + exts,
                                    consumed := before.consumed + statuses[..k],
                                    states := before.states + Reports(cfg, statuses[..k], cache),
                                    diagnostics := before.diagnostics + Diagnoses(cfg, statuses[..k]))
      {
        var status := statuses[k];
        var message, diagnostic := BuildMessages(status);
        consumed := consumed + [status];
        states := states + [message];
        diagnostics := diagnostics + [diagnostic];
        PublishedNext(cfg, before, statuses, k, cache);
      }
      assert statuses[..|statuses|] == statuses;
    }
  }

  lemma {:induction false} PushMore(core: Core, a: seq<Item>, b: seq<Item>)
    ensures PushAll(core, a + b) == PushAll(PushAll(core, a), b)
  {
    if b == [] {
      assert a + b == a;
    } else {
      PushMore(core, a, b[..|b| - 1]);
      assert (a + b)[..|a + b| - 1] == a + b[..|b| - 1];
    }
  }

  lemma PushNext(core: Core, f: Poll -> seq<Item>, polls: seq<Poll>, i: nat)
    requires i < |polls|
    ensures PushAll(core, Gather(f, polls[..i + 1])) == PushAll(PushAll(core, Gather(f, polls[..i])), f(polls[i]))
  {
    assert polls[..i + 1] == polls[..i] + [polls[i]];
    GatherSnoc(f, polls[..i], polls[i]);
    PushMore(core, Gather(f, polls[..i]), f(polls[i]));
  }

  lemma PublishedNext(cfg: Config, core: Core, statuses: seq<StatusFrame>, k: nat, cache: Option<real>)
    requires k < |statuses|
    ensures core.consumed + statuses[..k] + [statuses[k]] == core.consumed + statuses[..k + 1]
    ensures core.states + Reports(cfg, statuses[..k], cache) + [Report(cfg, statuses[k], cache)]
         == core.states + Reports(cfg, statuses[..k + 1], cache)
    ensures core.diagnostics + Diagnoses(cfg, statuses[..k]) + [Diagnose(cfg, statuses[k])]
         == core.diagnostics + Diagnoses(cfg, statuses[..k + 1])
  {
    assert statuses[..k] + [statuses[k]] == statuses[..k + 1];
    assert Reports(cfg, statuses[..k], cache) + [Report(cfg, statuses[k], cache)]
        == Reports(cfg, statuses[..k + 1], cache);
    assert Diagnoses(cfg, statuses[..k]) + [Diagnose(cfg, statuses[k])] == Diagnoses(cfg, statuses[..k + 1]);
    Associates(core.consumed, statuses[..k], statuses[k]);
    Associates(core.states, Reports(cfg, statuses[..k], cache), Report(cfg, statuses[k], cache));
    Associates(core.diagnostics, Diagnoses(cfg, statuses[..k]), Diagnose(cfg, statuses[k]));
  }

  lemma Associates<T>(a: seq<T>, b: seq<T>, x: T)
    ensures a + b + [x] == a + (b + [x])
  {
  }
}
