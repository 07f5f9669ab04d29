/** The node's configuration, the messages it exchanges with ROS, and what each callback sends. */
module Messages {
  import opened Numeric
  import opened Options
  import opened Wire
  import opened Mit
  import opened Protocol
  import opened Units

  datatype Configuration = Configuration(canId: uint8, invert: bool, spec: MotorSpec) {
    /** A quantity times the direction sign, +1 or -1. */
    function Signed(x: real): real { if invert then -1.0 * x else 1.0 * x }

    function MitLimits(): Limits {
      Limits(spec.velocityMin, spec.velocityMax, spec.torqueMin, spec.torqueMax)
    }

    function Flipped(): Configuration { this.(invert := !invert) }
  }

  /** A node starts only with a motor model that has proper ranges and positive gearing. */
  type Config = c: Configuration | c.spec.Valid()
    witness Configuration(0, false, MotorSpec(1.0, -1.0, 1.0, -1.0, 1.0, 1.0, 1.0))

  // ---- feedback messages ----

  datatype MotorState = MotorState(
    position: real, velocity: real, current: real, estimatedTorque: real,
    temperatureC: int8, errorCode: uint8, errorText: string, extendedPositionValid: bool)

  datatype Diagnostic = Diagnostic(hardwareId: uint8, isError: bool, message: string)

  function FaultCodeToString(code: uint8): string {
    match code
    case 0 => "none"
    case 1 => "motor_over_temperature"
    case 2 => "over_current"
    case 3 => "over_voltage"
    case 4 => "under_voltage"
    case 5 => "encoder_fault"
    case 6 => "mosfet_over_temperature"
    case 7 => "motor_lockup"
    case _ => "unknown"
  }

  /** The state message for one status frame, given the cached extended position. */
  function Report(cfg: Config, status: StatusFrame, cache: Option<real>): MotorState {
    var current := cfg.Signed(status.currentA);
    MotorState(cfg.Signed(DegToRad(cache.GetOr(status.positionDeg))),
               cfg.Signed(ErpmToRadPerSec(status.speedErpm, cfg.spec)),
               current, current * cfg.spec.torqueCoefficient,
               status.temperatureC, status.errorCode, FaultCodeToString(status.errorCode), cache.Some?)
  }

  function Diagnose(cfg: Config, status: StatusFrame): Diagnostic {
    if status.errorCode == 0 then Diagnostic(cfg.canId, false, "no fault")
    else Diagnostic(cfg.canId, true, FaultCodeToString(status.errorCode))
  }

  /** A state message, converted back, gives the wire quantities it came from, negated when the node is
      inverted: the cached position if there is one, the status frame's own otherwise. */
  lemma ReportReadsBack(cfg: Config, status: StatusFrame, cache: Option<real>)
    ensures var m := Report(cfg, status, cache);
      var positionDeg := if cache.Some? then cache.value else status.positionDeg;
      && RadToDeg(m.position) == (if cfg.invert then -positionDeg else positionDeg)
      && RadPerSecToErpm(m.velocity, cfg.spec) == (if cfg.invert then -status.speedErpm else status.speedErpm)
      && m.current == (if cfg.invert then -status.currentA else status.currentA)
      && m.estimatedTorque == cfg.spec.torqueCoefficient * m.current
      && m.temperatureC == status.temperatureC && m.errorCode == status.errorCode
      && (m.extendedPositionValid <==> cache.Some?)
  {
  }

  /** The diagnostic published beside a state message agrees with it. */
  lemma DiagnosticMirrorsState(cfg: Config, status: StatusFrame, cache: Option<real>)
    ensures var m, d := Report(cfg, status, cache), Diagnose(cfg, status);
      && (d.isError <==> m.errorCode != 0)
      && d.message == (if d.isError then m.errorText else "no fault")
      && d.hardwareId == cfg.canId
  {
  }

  // ---- callbacks ----

  datatype MotorCommand = MotorCommand(
    mode: uint8, duty: real, current: real, velocity: real, position: real, acceleration: real,
    mitVelocity: real, mitTorque: real, kp: real, kd: real)

  /** One invocation of a subscription or service callback. */
  datatype Callback =
    | Command(msg: MotorCommand)
    | OriginService(permanent: bool)
    | FeedbackService(extended: bool, singleTurn: bool)
    | DisableService

  /** The content of the frame a callback sends, in wire units before truncation to a field. */
  datatype Intent =
    | WordIntent(mode: uint8, value: real)
    | PositionVelocityIntent(position: real, speed: real, acceleration: real)
    | MitIntent(setpoint: Setpoint)
    | ServiceIntent(command: WireCommand)
    | NoIntent

  function IntentOf(cfg: Config, cb: Callback): Intent {
    match cb
    case Command(m) =>
      if m.mode == MODE_DUTY then WordIntent(MODE_DUTY, cfg.Signed(m.duty) * 100000.0)
      else if m.mode == MODE_CURRENT then WordIntent(MODE_CURRENT, cfg.Signed(m.current) * 1000.0)
      else if m.mode == MODE_CURRENT_BRAKE then WordIntent(MODE_CURRENT_BRAKE, m.current * 1000.0)
      else if m.mode == MODE_VELOCITY then WordIntent(MODE_VELOCITY, RadPerSecToErpm(cfg.Signed(m.velocity), cfg.spec))
      else if m.mode == MODE_POSITION then WordIntent(MODE_POSITION, RadToDeg(cfg.Signed(m.position)) * 10000.0)
      else if m.mode == MODE_POSITION_VELOCITY then
        PositionVelocityIntent(RadToDeg(cfg.Signed(m.position)) * 10000.0,
                               RadPerSecToErpm(cfg.Signed(m.velocity), cfg.spec) / 10.0,
                               RadPerSecToErpm(cfg.Signed(m.acceleration), cfg.spec) / 10.0)
      else if m.mode == MODE_MIT then
        MitIntent(Setpoint(cfg.Signed(m.position), cfg.Signed(m.mitVelocity), m.kp, m.kd, cfg.Signed(m.mitTorque)))
      else NoIntent
    case OriginService(permanent) => ServiceIntent(SetOrigin(permanent))
    case FeedbackService(extended, singleTurn) => ServiceIntent(FeedbackConfig(extended, singleTurn))
    case DisableService => ServiceIntent(Disable)
  }

  /** The wire quantity of a command, converted back to SI units, is the quantity the command asks for,
      negated when the node is inverted; a braking current and the gains carry no direction. */
  lemma IntentReadsBack(cfg: Config, m: MotorCommand)
    ensures match IntentOf(cfg, Command(m))
      case WordIntent(mode, v) =>
        && mode == m.mode
        && (mode == MODE_DUTY ==> v / 100000.0 == if cfg.invert then -m.duty else m.duty)
        && (mode == MODE_CURRENT ==> v / 1000.0 == if cfg.invert then -m.current else m.current)
        && (mode == MODE_CURRENT_BRAKE ==> v / 1000.0 == m.current)
        && (mode == MODE_VELOCITY ==> ErpmToRadPerSec(v, cfg.spec) == if cfg.invert then -m.velocity else m.velocity)
        && (mode == MODE_POSITION ==> DegToRad(v / 10000.0) == if cfg.invert then -m.position else m.position)
      case PositionVelocityIntent(p, s, a) =>
        && DegToRad(p / 10000.0) == (if cfg.invert then -m.position else m.position)
        && ErpmToRadPerSec(s * 10.0, cfg.spec) == (if cfg.invert then -m.velocity else m.velocity)
        && ErpmToRadPerSec(a * 10.0, cfg.spec) == (if cfg.invert then -m.acceleration else m.acceleration)
      case MitIntent(setpoint) =>
        && setpoint.position == (if cfg.invert then -m.position else m.position)
        && setpoint.velocity == (if cfg.invert then -m.mitVelocity else m.mitVelocity)
        && setpoint.torque == (if cfg.invert then -m.mitTorque else m.mitTorque)
        && setpoint.kp == m.kp && setpoint.kd == m.kd
      case ServiceIntent(_) => false
      case NoIntent => !Recognised(Command(m))
  {
    if m.mode == MODE_VELOCITY {
      VelocityRoundTrip(cfg.Signed(m.velocity), cfg.spec);
    } else if m.mode == MODE_POSITION {
      DegreesRoundTrip(cfg.Signed(m.position));
    } else if m.mode == MODE_POSITION_VELOCITY {
      DegreesRoundTrip(cfg.Signed(m.position));
      TenthRoundTrip(cfg.Signed(m.velocity), cfg.spec);
      TenthRoundTrip(cfg.Signed(m.acceleration), cfg.spec);
    }
  }

  lemma TenthRoundTrip(x: real, spec: MotorSpec)
    requires spec.Valid()
    ensures ErpmToRadPerSec(RadPerSecToErpm(x, spec) / 10.0 * 10.0, spec) == x
  {
    VelocityRoundTrip(x, spec);
    assert RadPerSecToErpm(x, spec) / 10.0 * 10.0 == RadPerSecToErpm(x, spec);
  }

  /** The fields the mode of a command uses lie in their documented domains. */
  predicate Documented(spec: MotorSpec, m: MotorCommand) {
    && (m.mode == MODE_DUTY ==> -1.0 <= m.duty <= 1.0)
    && (m.mode == MODE_CURRENT || m.mode == MODE_CURRENT_BRAKE ==> -60.0 <= m.current <= 60.0)
    && (m.mode == MODE_VELOCITY || m.mode == MODE_POSITION_VELOCITY ==>
          spec.velocityMin <= m.velocity <= spec.velocityMax)
    && (m.mode == MODE_POSITION || m.mode == MODE_POSITION_VELOCITY ==>
          -36000.0 <= RadToDeg(m.position) <= 36000.0)
    && (m.mode == MODE_POSITION_VELOCITY ==> spec.velocityMin <= m.acceleration <= spec.velocityMax)
  }

  /** Within the documented domains of every motor in the table, every conversion is defined. */
  lemma DocumentedCommandsFit(cfg: Config, m: MotorCommand)
    requires InTable(cfg.spec) && Documented(cfg.spec, m)
    ensures Fits(cfg, Command(m))
  {
    if m.mode == MODE_DUTY {
      DutyFits(cfg, m.duty);
    } else if m.mode == MODE_CURRENT || m.mode == MODE_CURRENT_BRAKE {
      CurrentFits(cfg, m.current);
    } else if m.mode == MODE_VELOCITY {
      VelocityFits(cfg, m.velocity);
    } else if m.mode == MODE_POSITION {
      PositionFits(cfg, m.position);
    } else if m.mode == MODE_POSITION_VELOCITY {
      PositionFits(cfg, m.position);
      VelocityFits(cfg, m.velocity);
      VelocityFits(cfg, m.acceleration);
    }
  }

  lemma VelocityFits(cfg: Config, v: real)
    requires InTable(cfg.spec) && cfg.spec.velocityMin <= v <= cfg.spec.velocityMax
    ensures FitsInt32(RadPerSecToErpm(cfg.Signed(v), cfg.spec))
    ensures FitsInt16(RadPerSecToErpm(cfg.Signed(v), cfg.spec) / 10.0)
  {
    TableIsValid(cfg.spec);
    TableVelocitiesFit(cfg.spec, cfg.Signed(v));
  }

  lemma PositionFits(cfg: Config, x: real)
    requires -36000.0 <= RadToDeg(x) <= 36000.0
    ensures FitsInt32(RadToDeg(cfg.Signed(x)) * 10000.0)
  {
  }

  lemma DutyFits(cfg: Config, duty: real)
    requires -1.0 <= duty <= 1.0
    ensures FitsInt32(cfg.Signed(duty) * 100000.0)
  {
  }

  lemma CurrentFits(cfg: Config, current: real)
    requires -60.0 <= current <= 60.0
    ensures FitsInt32(cfg.Signed(current) * 1000.0) && FitsInt32(current * 1000.0)
  {
  }

  /** The conversions to integer fields are defined only for values the fields can hold. */
  predicate Fits(cfg: Config, cb: Callback) {
    match IntentOf(cfg, cb)
    case WordIntent(_, value) => FitsInt32(value)
    case PositionVelocityIntent(p, s, a) => FitsInt32(p) && FitsInt16(s) && FitsInt16(a)
    case _ => true
  }

  /** The frame a callback hands to the socket; none for an unrecognised mode. */
  function FrameFor(cfg: Config, cb: Callback): Option<CanFrame>
    requires Fits(cfg, cb)
  {
    match IntentOf(cfg, cb)
    case WordIntent(mode, value) => Some(WordFrame(mode, cfg.canId, Trunc(value)))
    case PositionVelocityIntent(p, s, a) => Some(PositionVelocityFrame(cfg.canId, Trunc(p), Trunc(s), Trunc(a)))
    case MitIntent(setpoint) => Some(MitFrame(cfg.canId, setpoint, cfg.MitLimits()))
    case ServiceIntent(command) => Some(ServiceFrame(cfg.canId, command))
    case NoIntent => None
  }

  function ServiceFrame(canId: uint8, command: WireCommand): CanFrame {
    match command
    case SetOrigin(permanent) => SetOriginFrame(canId, permanent)
    case FeedbackConfig(extended, singleTurn) => FeedbackConfigFrame(canId, extended, singleTurn)
    case _ => DisableFrame(canId)
  }

  /** The control mode byte of a callback's frame. */
  function ModeByte(cb: Callback): uint8 {
    match cb
    case Command(m) => m.mode
    case OriginService(_) => MODE_SET_ORIGIN
    case FeedbackService(_, _) => MODE_FEEDBACK_CONFIG
    case DisableService => MODE_DISABLE
  }

  function DataLengthOf(mode: uint8): uint8 {
    if IsWordMode(mode) then 4
    else if mode == MODE_SET_ORIGIN then 1
    else if mode == MODE_DISABLE then 0
    else 8
  }

  predicate Recognised(cb: Callback) {
    cb.Command? ==> IsWordMode(cb.msg.mode) || cb.msg.mode == MODE_POSITION_VELOCITY || cb.msg.mode == MODE_MIT
  }

  /** The kind of content follows the mode byte. */
  lemma IntentMode(cfg: Config, cb: Callback)
    ensures match IntentOf(cfg, cb)
      case WordIntent(mode, _) => mode == ModeByte(cb) && IsWordMode(mode) && Recognised(cb)
      case PositionVelocityIntent(_, _, _) => ModeByte(cb) == MODE_POSITION_VELOCITY && Recognised(cb)
      case MitIntent(_) => ModeByte(cb) == MODE_MIT && Recognised(cb)
      case ServiceIntent(command) => ModeByte(cb) == ServiceMode(command) && Recognised(cb)
      case NoIntent => !Recognised(cb)
  {
  }

  function ServiceMode(command: WireCommand): uint8 {
    match command
    case SetOrigin(_) => MODE_SET_ORIGIN
    case FeedbackConfig(_, _) => MODE_FEEDBACK_CONFIG
    case _ => MODE_DISABLE
  }

  /** A frame with the header that goes with a mode, and no stray bytes after its data. */
  predicate HasHeader(frame: CanFrame, mode: uint8, canId: uint8) {
    && frame.id == BuildCanId(mode, canId) && IsCommandMode(mode)
    && frame.dlc == DataLengthOf(mode) <= 8
    && frame.data[frame.dlc..] == ZEROS[frame.dlc..]
  }

  lemma ServiceHeader(canId: uint8, command: WireCommand)
    ensures HasHeader(ServiceFrame(canId, command), ServiceMode(command), canId)
  {
  }

  lemma CommandHeaders(canId: uint8, mode: uint8, value: int32, speed: int16, acceleration: int16)
    ensures IsWordMode(mode) ==> HasHeader(WordFrame(mode, canId, value), mode, canId)
    ensures HasHeader(PositionVelocityFrame(canId, value, speed, acceleration), MODE_POSITION_VELOCITY, canId)
  {
  }

  /** The header of every frame sent names this node's motor and the requested mode. */
  lemma FrameHeader(cfg: Config, cb: Callback)
    requires Fits(cfg, cb)
    ensures FrameFor(cfg, cb).Some? <==> Recognised(cb)
    ensures FrameFor(cfg, cb).Some? ==> HasHeader(FrameFor(cfg, cb).value, ModeByte(cb), cfg.canId)
  {
    IntentMode(cfg, cb);
    match IntentOf(cfg, cb)
    case WordIntent(mode, value) => CommandHeaders(cfg.canId, mode, Trunc(value), 0, 0);
    case PositionVelocityIntent(p, s, a) => CommandHeaders(cfg.canId, MODE_DUTY, Trunc(p), Trunc(s), Trunc(a));
    case ServiceIntent(command) => ServiceHeader(cfg.canId, command);
    case _ =>
  }

  /** The same in numbers: which callbacks have a frame, its identifier and its length. */
  lemma FrameNumbers(cfg: Config, cb: Callback)
    requires Fits(cfg, cb)
    ensures FrameFor(cfg, cb).Some? <==> cb.Command? ==> cb.msg.mode <= 4 || cb.msg.mode == 6 || cb.msg.mode == 8
    ensures FrameFor(cfg, cb).Some? ==>
      var frame := FrameFor(cfg, cb).value;
      match cb
      case Command(m) => frame.id == 0x100 * m.mode + cfg.canId && frame.dlc == if m.mode <= 4 then 4 else 8
      case OriginService(_) => frame.id == 0x500 + cfg.canId && frame.dlc == 1
      case FeedbackService(_, _) => frame.id == 0x1000 + cfg.canId && frame.dlc == 8
      case DisableService => frame.id == 0xF00 + cfg.canId && frame.dlc == 0
  {
    FrameHeader(cfg, cb);
  }

  /** The content of a callback's frame: the requested quantities, truncated toward zero or quantised. */
  function WireOf(cfg: Config, cb: Callback): Option<WireCommand>
    requires Fits(cfg, cb)
  {
    match IntentOf(cfg, cb)
    case WordIntent(mode, value) => Some(Word(mode, Trunc(value)))
    case PositionVelocityIntent(p, s, a) => Some(PositionVelocity(Trunc(p), Trunc(s), Trunc(a)))
    case MitIntent(setpoint) => Some(Impedance(Carried(Quantise(setpoint, cfg.MitLimits()))))
    case ServiceIntent(command) => Some(command)
    case NoIntent => None
  }

  /** What a motor reads from the frame is the requested quantity, truncated toward zero, with the sign
      of the configured direction; an MIT setpoint is read as quantised exactly when every field is
      below its upper bound, and otherwise as what the frame can carry of it. */
  lemma FrameReadsBack(cfg: Config, cb: Callback)
    requires Fits(cfg, cb) && FrameFor(cfg, cb).Some?
    ensures ReadCommand(FrameFor(cfg, cb).value) == WireOf(cfg, cb)
    ensures IntentOf(cfg, cb).MitIntent? ==>
      var setpoint, limits := IntentOf(cfg, cb).setpoint, cfg.MitLimits();
      (ReadCommand(FrameFor(cfg, cb).value) == Some(Impedance(Quantise(setpoint, limits))) <==>
       BelowUpperBounds(setpoint, limits))
  {
    IntentMode(cfg, cb);
    match IntentOf(cfg, cb)
    case WordIntent(mode, value) => ReadWord(mode, cfg.canId, Trunc(value));
    case PositionVelocityIntent(p, s, a) => ReadPositionVelocity(cfg.canId, Trunc(p), Trunc(s), Trunc(a));
    case MitIntent(setpoint) => ReadMit(cfg.canId, setpoint, cfg.MitLimits());
    case ServiceIntent(command) => ReadService(cfg.canId, command);
    case NoIntent =>
  }

  lemma ReadService(canId: uint8, command: WireCommand)
    requires command.SetOrigin? || command.FeedbackConfig? || command.Disable?
    ensures ReadCommand(ServiceFrame(canId, command)) == Some(command)
  {
    match command
    case SetOrigin(x) => ReadServices(canId, x, false);
    case FeedbackConfig(x, y) => ReadServices(canId, x, y);
    case _ => ReadServices(canId, false, false);
  }
}
