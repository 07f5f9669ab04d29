/** From a motor command to what a motor reads off the bus, and from a motor's frame to what is published,
    in SI units. Modes, scales, fixed ranges and the direction are written out here as numbers. */
module Delivery {
  import opened Numeric
  import opened Options
  import opened Wire
  import opened CanSocket
  import opened Quantizer
  import opened Mit
  import opened Protocol
  import opened Units
  import opened Messages
  import opened Atomic
  import opened Transmit

  // ---- commands ----

  /** A quantity with a direction, as the motor sees it. */
  function Physical(cfg: Config, x: real): real {
    if cfg.invert then -x else x
  }

  /** The quantity a word mode commands: 0 duty, 1 current, 2 braking current, 3 velocity, 4 position. */
  function Requested(cfg: Config, m: MotorCommand): real {
    if m.mode == 0 then Physical(cfg, m.duty)
    else if m.mode == 1 then Physical(cfg, m.current)
    else if m.mode == 2 then m.current
    else if m.mode == 3 then Physical(cfg, m.velocity)
    else Physical(cfg, m.position)
  }

  /** A wire value of a word mode, in SI units. */
  function WordValue(spec: MotorSpec, mode: uint8, value: real): real
    requires spec.Valid()
  {
    if mode == 0 then value / 100000.0
    else if mode <= 2 then value / 1000.0
    else if mode == 3 then ErpmToRadPerSec(value, spec)
    else DegToRad(value / 10000.0)
  }

  /** The frame content w stands for the command m: every servo quantity has no opposite sign, no
      greater magnitude, and is less than one wire unit away; an MIT setpoint is recovered, each field
      from below and to within a step of its range, exactly when it is below its upper bounds. */
  predicate Conveys(cfg: Config, m: MotorCommand, w: WireCommand) {
    var spec := cfg.spec;
    match w
    case Word(mode, n) =>
      mode == m.mode && Toward(WordValue(spec, mode, n as real), Requested(cfg, m), WordValue(spec, mode, 1.0))
    case PositionVelocity(p, s, a) =>
      && m.mode == 6
      && Toward(DegToRad(p as real / 10000.0), Physical(cfg, m.position), DegToRad(1.0 / 10000.0))
      && Toward(ErpmToRadPerSec(s as real * 10.0, spec), Physical(cfg, m.velocity), ErpmToRadPerSec(10.0, spec))
      && Toward(ErpmToRadPerSec(a as real * 10.0, spec), Physical(cfg, m.acceleration), ErpmToRadPerSec(10.0, spec))
    case Impedance(codes) =>
      var position, velocity := Physical(cfg, m.position), Physical(cfg, m.mitVelocity);
      var torque := Physical(cfg, m.mitTorque);
      var below := position < 12.56 && m.kp < 500.0 && m.kd < 5.0
                   && velocity < spec.velocityMax && torque < spec.torqueMax;
      && m.mode == 8
      && (below <==> && Recovered(codes.p, position, -12.56, 12.56, 16)
                     && Recovered(codes.v, velocity, spec.velocityMin, spec.velocityMax, 12)
                     && Recovered(codes.kp, m.kp, 0.0, 500.0, 12)
                     && Recovered(codes.kd, m.kd, 0.0, 5.0, 12)
                     && Recovered(codes.t, torque, spec.torqueMin, spec.torqueMax, 12))
    case _ => false
  }

  /** A code of a `bits`-bit field gives the clamped x from below, to within a step of the range. */
  predicate Recovered(code: nat, x: real, lo: real, hi: real, bits: nat)
    requires lo < hi && bits < 32
  {
    JustBelow(UintToFloat(code, lo, hi, bits), Clamp(x, lo, hi), Step(lo, hi, bits))
  }

  /** Every recognised command that fits its fields crosses the framing and is read, in SI units, as
      what was commanded. */
  lemma CommandDelivered(cfg: Config, m: MotorCommand)
    requires Fits(cfg, Command(m)) && Recognised(Command(m))
    ensures FrameFor(cfg, Command(m)).Some? && FrameFor(cfg, Command(m)).value.dlc <= 8
    ensures var arrived := FromRaw(ToRaw(FrameFor(cfg, Command(m)).value), FRESH);
      && arrived.Some? && ReadCommand(arrived.value).Some?
      && Conveys(cfg, m, ReadCommand(arrived.value).value)
  {
    var cb := Command(m);
    FrameHeader(cfg, cb);
    CommandArrives(cfg, cb);
    FrameReadsBack(cfg, cb);
    match IntentOf(cfg, cb)
    case WordIntent(mode, value) => WordConveys(cfg, m, mode, value);
    case PositionVelocityIntent(p, s, a) => PositionVelocityConveys(cfg, m, p, s, a);
    case MitIntent(setpoint) => MitConveys(cfg, m, setpoint);
    case _ =>
  }

  lemma MitConveys(cfg: Config, m: MotorCommand, setpoint: Setpoint)
    requires IntentOf(cfg, Command(m)) == MitIntent(setpoint)
    ensures Conveys(cfg, m, Impedance(Carried(Quantise(setpoint, cfg.MitLimits()))))
  {
    IntentReadsBack(cfg, m);
    MitRoundTrip(cfg.canId, setpoint, cfg.MitLimits());
    UnpackExact(Quantise(setpoint, cfg.MitLimits()));
  }

  lemma DegreesToward(y: real, x: real)
    requires Toward(y, x, 1.0)
    ensures Toward(DegToRad(y / 10000.0), DegToRad(x / 10000.0), DegToRad(1.0 / 10000.0))
  {
  }

  lemma WordConveys(cfg: Config, m: MotorCommand, mode: uint8, value: real)
    requires IntentOf(cfg, Command(m)) == WordIntent(mode, value) && FitsInt32(value)
    ensures Conveys(cfg, m, Word(mode, Trunc(value)))
  {
    IntentReadsBack(cfg, m);
    TruncToward(value);
    WordValueToward(cfg.spec, mode, Trunc(value) as real, value);
    assert WordValue(cfg.spec, mode, value) == Requested(cfg, m);
  }

  lemma WordValueToward(spec: MotorSpec, mode: uint8, y: real, x: real)
    requires spec.Valid() && Toward(y, x, 1.0)
    ensures Toward(WordValue(spec, mode, y), WordValue(spec, mode, x), WordValue(spec, mode, 1.0))
  {
    if mode == 3 {
      ErpmToward(y, x, 1.0, spec);
      ErpmLinear(1.0, spec);
    } else if mode > 3 {
      DegreesToward(y, x);
    }
  }

  lemma PositionVelocityConveys(cfg: Config, m: MotorCommand, p: real, s: real, a: real)
    requires IntentOf(cfg, Command(m)) == PositionVelocityIntent(p, s, a)
    requires FitsInt32(p) && FitsInt16(s) && FitsInt16(a)
    ensures Conveys(cfg, m, PositionVelocity(Trunc(p), Trunc(s), Trunc(a)))
  {
    IntentReadsBack(cfg, m);
    TruncToward(p);
    DegreesToward(Trunc(p) as real, p);
    TenthConveys(cfg.spec, s);
    TenthConveys(cfg.spec, a);
  }

  /** A speed sent in tens of ERPM. */
  lemma TenthConveys(spec: MotorSpec, s: real)
    requires spec.Valid()
    ensures Toward(ErpmToRadPerSec(Trunc(s) as real * 10.0, spec), ErpmToRadPerSec(s * 10.0, spec),
                   ErpmToRadPerSec(10.0, spec))
  {
    TruncToward(s);
    ErpmToward(Trunc(s) as real * 10.0, s * 10.0, 10.0, spec);
    ErpmLinear(10.0, spec);
  }

  /** The frame of every service call, byte by byte: bit 15 of the last two bytes asks for the extended
      position, bit 14 for single-turn mode. */
  lemma ServiceSent(cfg: Config, cb: Callback)
    requires !cb.Command?
    ensures Fits(cfg, cb)
    ensures FrameFor(cfg, cb) == Some(
              if cb.OriginService? then
                CanFrame(0x500 + cfg.canId, 1, [if cb.permanent then 1 else 0, 0, 0, 0, 0, 0, 0, 0])
              else if cb.FeedbackService? then
                CanFrame(0x1000 + cfg.canId, 8,
                         [0, 0, 0, 0, 0, 0, (if cb.extended then 0x80 else 0) + (if cb.singleTurn then 0x40 else 0), 0])
              else CanFrame(0xF00 + cfg.canId, 0, ZEROS))
  {
    ServiceLayout(cfg.canId, cb.OriginService? && cb.permanent, false);
    if cb.FeedbackService? {
      ServiceLayout(cfg.canId, cb.extended, cb.singleTurn);
    }
  }

  // ---- feedback ----

  /** A status frame as it arrives at the socket, with tenths of a degree p in bytes 0-1, tens of ERPM v in
      bytes 2-3, hundredths of an ampere c in bytes 4-5, a temperature and an error code, becomes this
      state: its own quantities in the node's direction, but the cached position if there is one. */
  lemma StatusPublished(cfg: Config, raw: RawFrame, cache: Option<real>,
                        p: int16, v: int16, c: int16, temperature: int8, error: uint8)
    requires raw.canId == 0x8000_2900 + cfg.canId && raw.dlc == 8
    requires BigEndian(raw.data[0..2]) == Pattern(p, 0x1_0000) && BigEndian(raw.data[2..4]) == Pattern(v, 0x1_0000)
    requires BigEndian(raw.data[4..6]) == Pattern(c, 0x1_0000)
    requires raw.data[6] == Pattern(temperature, 0x100) && raw.data[7] == error
    ensures FromRaw(raw, FRESH).Some?
    ensures var item := Decode(FromRaw(raw, FRESH).value, cfg.canId);
      && item.Some? && item.value.StatusItem?
      && var m := Report(cfg, item.value.status, cache);
      && (cache.None? ==> RadToDeg(m.position) * 10.0 == Physical(cfg, p as real))
      && (cache.Some? ==> RadToDeg(m.position) == Physical(cfg, cache.value))
      && RadPerSecToErpm(m.velocity, cfg.spec) == 10.0 * Physical(cfg, v as real)
      && m.current * 100.0 == Physical(cfg, c as real)
      && m.temperatureC == temperature && m.errorCode == error && (m.extendedPositionValid <==> cache.Some?)
  {
    FromRawExact(raw, FRESH);
    assert raw.data[..8] + ZEROS[8..] == raw.data;
    StatusBigEndian(raw.data, p, v, c, temperature, error);
    var f := FromRaw(raw, FRESH).value;
    DecodeStatusExact(f, cfg.canId, p, v, c, temperature, error);
    ReportReadsBack(cfg, DecodeStatusFrame(f, cfg.canId).value, cache);
  }

  lemma StatusBigEndian(data: Payload, p: int16, v: int16, c: int16, temperature: int8, error: uint8)
    requires BigEndian(data[0..2]) == Pattern(p, 0x1_0000) && BigEndian(data[2..4]) == Pattern(v, 0x1_0000)
    requires BigEndian(data[4..6]) == Pattern(c, 0x1_0000)
    requires data[6] == Pattern(temperature, 0x100) && data[7] == error
    ensures data == StatusBytes(p, v, c, temperature, error)
  {
    Int16BigEndian(data[0..2], p);
    Int16BigEndian(data[2..4], v);
    Int16BigEndian(data[4..6], c);
    StatusSlices(data, p, v, c, temperature, error);
  }

  /** An extended-position frame of hundredths of a degree, as it arrives at the socket, carries that
      position to the cache. */
  lemma ExtendedAbsorbed(cfg: Config, raw: RawFrame, cache: Option<real>, p: int32)
    requires raw.canId == 0x8000_2A00 + cfg.canId && raw.dlc >= 4
    requires BigEndian(raw.data[..4]) == Pattern(p, 0x1_0000_0000)
    ensures FromRaw(raw, FRESH).Some?
    ensures var item := Decode(FromRaw(raw, FRESH).value, cfg.canId);
      && item.Some? && item.value.ExtendedItem?
      && var after := Absorb(cache, [item.value.ext]);
      after.Some? && after.value * 100.0 == p as real
  {
    FromRawExact(raw, FRESH);
    var f := FromRaw(raw, FRESH).value;
    assert f.data[..4] == raw.data[..raw.dlc][..4] == raw.data[..4];
    Int32BigEndian(raw.data[..4], p);
    FeedbackNumbers(cfg.canId);
    DecodeExtendedExact(f, cfg.canId, p);
  }
}
