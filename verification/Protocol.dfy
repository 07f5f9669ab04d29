/** Servo-mode packers and feedback decoders of protocol.cpp. */
module Protocol {
  import opened Numeric
  import opened Options
  import opened Wire
  import opened Mit

  const MODE_DUTY: uint8 := 0
  const MODE_CURRENT: uint8 := 1
  const MODE_CURRENT_BRAKE: uint8 := 2
  const MODE_VELOCITY: uint8 := 3
  const MODE_POSITION: uint8 := 4
  const MODE_SET_ORIGIN: uint8 := 5
  const MODE_POSITION_VELOCITY: uint8 := 6
  const MODE_DISABLE: uint8 := 15
  const MODE_FEEDBACK_CONFIG: uint8 := 16

  const FUNC_ID_STATUS: uint8 := 0x29
  const FUNC_ID_EXT_POSITION: uint8 := 0x2A
  const FUNC_ID_STARTUP: uint8 := 0x2C

  // ---- what each packer puts on the wire ----

  /** A frame whose payload is one signed 32-bit value. */
  function WordFrame(mode: uint8, canId: uint8, value: int32): CanFrame {
    MakeFrame(mode, canId, Int32Bytes(value) + [0, 0, 0, 0], 4)
  }

  function PositionVelocityFrame(canId: uint8, position: int32, speed: int16, acceleration: int16): CanFrame {
    MakeFrame(MODE_POSITION_VELOCITY, canId, Int32Bytes(position) + Int16Bytes(speed) + Int16Bytes(acceleration), 8)
  }

  function SetOriginFrame(canId: uint8, permanent: bool): CanFrame {
    MakeFrame(MODE_SET_ORIGIN, canId, [if permanent then 1 else 0, 0, 0, 0, 0, 0, 0, 0], 1)
  }

  function DisableFrame(canId: uint8): CanFrame {
    MakeFrame(MODE_DISABLE, canId, ZEROS, 0)
  }

  /** Bit 15 asks for the extended position frame, bit 14 for single-turn mode. */
  function FeedbackParam(extended: bool, singleTurn: bool): uint16 {
    (if extended then 0x8000 else 0) + (if singleTurn then 0x4000 else 0)
  }

  function FeedbackConfigFrame(canId: uint8, extended: bool, singleTurn: bool): CanFrame {
    MakeFrame(MODE_FEEDBACK_CONFIG, canId, [0, 0, 0, 0, 0, 0] + Int16Bytes(FeedbackParam(extended, singleTurn)), 8)
  }

  // ---- the packers ----

  method PackWord(mode: uint8, canId: uint8, value: int32) returns (frame: CanFrame)
    ensures frame == WordFrame(mode, canId, value)
  {
    var buf := new uint8[8](_ => 0);
    assert buf[4..] == [0, 0, 0, 0];
    var idx := AppendInt32(buf, 0, value);
    frame := MakeFrame(mode, canId, buf[..], idx);
  }

  method PackDuty(canId: uint8, duty: real) returns (frame: CanFrame)
    requires FitsInt32(duty * 100000.0)
    ensures frame == WordFrame(MODE_DUTY, canId, Trunc(duty * 100000.0))
  {
    frame := PackWord(MODE_DUTY, canId, Trunc(duty * 100000.0));
  }

  method PackCurrent(canId: uint8, currentA: real) returns (frame: CanFrame)
    requires FitsInt32(currentA * 1000.0)
    ensures frame == WordFrame(MODE_CURRENT, canId, Trunc(currentA * 1000.0))
  {
    frame := PackWord(MODE_CURRENT, canId, Trunc(currentA * 1000.0));
  }

  method PackCurrentBrake(canId: uint8, currentA: real) returns (frame: CanFrame)
    requires FitsInt32(currentA * 1000.0)
    ensures frame == WordFrame(MODE_CURRENT_BRAKE, canId, Trunc(currentA * 1000.0))
  {
    frame := PackWord(MODE_CURRENT_BRAKE, canId, Trunc(currentA * 1000.0));
  }

  method PackVelocityErpm(canId: uint8, erpm: real) returns (frame: CanFrame)
    requires FitsInt32(erpm)
    ensures frame == WordFrame(MODE_VELOCITY, canId, Trunc(erpm))
  {
    frame := PackWord(MODE_VELOCITY, canId, Trunc(erpm));
  }

  method PackPositionDeg(canId: uint8, positionDeg: real) returns (frame: CanFrame)
    requires FitsInt32(positionDeg * 10000.0)
    ensures frame == WordFrame(MODE_POSITION, canId, Trunc(positionDeg * 10000.0))
  {
    frame := PackWord(MODE_POSITION, canId, Trunc(positionDeg * 10000.0));
  }

  method PackSetOrigin(canId: uint8, permanent: bool) returns (frame: CanFrame)
    ensures frame == SetOriginFrame(canId, permanent)
  {
    var buf := new uint8[8](_ => 0);
    buf[0] := if permanent then 1 else 0;
    assert buf[..] == SetOriginFrame(canId, permanent).data;
    frame := MakeFrame(MODE_SET_ORIGIN, canId, buf[..], 1);
  }

  /** Three appends through one cursor: bytes 0-3, 4-5 and 6-7. */
  method PackPositionVelocity(canId: uint8, positionDeg: real, speedErpm: real, accelErpm: real)
    returns (frame: CanFrame)
    requires FitsInt32(positionDeg * 10000.0) && FitsInt16(speedErpm / 10.0) && FitsInt16(accelErpm / 10.0)
    ensures frame == PositionVelocityFrame(canId, Trunc(positionDeg * 10000.0),
                                           Trunc(speedErpm / 10.0), Trunc(accelErpm / 10.0))
  {
    var buf := new uint8[8](_ => 0);
    var idx := AppendInt32(buf, 0, Trunc(positionDeg * 10000.0));
    assert buf[..idx] == Int32Bytes(Trunc(positionDeg * 10000.0));
    idx := AppendInt16(buf, idx, Trunc(speedErpm / 10.0));
    assert buf[..idx] == Int32Bytes(Trunc(positionDeg * 10000.0)) + Int16Bytes(Trunc(speedErpm / 10.0));
    idx := AppendInt16(buf, idx, Trunc(accelErpm / 10.0));
    frame := MakeFrame(MODE_POSITION_VELOCITY, canId, buf[..], idx);
  }

  method PackDisable(canId: uint8) returns (frame: CanFrame)
    ensures frame == DisableFrame(canId)
  {
    var buf := new uint8[8](_ => 0);
    assert buf[..] == ZEROS;
    frame := MakeFrame(MODE_DISABLE, canId, buf[..], 0);
  }

  method PackFeedbackConfig(canId: uint8, extended: bool, singleTurn: bool) returns (frame: CanFrame)
    ensures frame == FeedbackConfigFrame(canId, extended, singleTurn)
  {
    var buf := new uint8[8](_ => 0);
    assert buf[..6] == [0, 0, 0, 0, 0, 0];
    var param: nat := 0;
    if extended {
      param := BitOr(param, 0x8000);
    }
    if singleTurn {
      param := BitOr(param, 0x4000);
    }
    assert param == FeedbackParam(extended, singleTurn) by {
      FeedbackBits();
    }
    var idx := AppendUint16(buf, 6, param);
    frame := MakeFrame(MODE_FEEDBACK_CONFIG, canId, buf[..], idx);
  }

  lemma FeedbackBits()
    ensures BitOr(0, 0x8000) == 0x8000 && BitOr(0, 0x4000) == 0x4000 && BitOr(0x8000, 0x4000) == 0xC000
  {
    BitOrZero(0x8000);
    BitOrZero(0x4000);
    Shl14(2);
    Shl14(1);
    Shl14(3);
    OrShifted(14);
  }

  lemma OrShifted(k: nat)
    ensures BitOr(Shl(2, k), Shl(1, k)) == Shl(3, k)
  {
  }

  /** The frame of a word command, as numbers. */
  lemma WordLayout(mode: uint8, canId: uint8, value: int32)
    ensures var f := WordFrame(mode, canId, value);
      f.id == 0x100 * mode + canId && f.dlc == 4 && BigEndian(f.data[0..4]) == Pattern(value, 0x1_0000_0000)
  {
    assert WordFrame(mode, canId, value).data[0..4] == Int32Bytes(value);
    Int32BigEndian(Int32Bytes(value), value);
  }

  lemma PositionVelocityLayout(canId: uint8, p: int32, s: int16, a: int16)
    ensures var f := PositionVelocityFrame(canId, p, s, a);
      && f.id == 0x600 + canId && f.dlc == 8
      && BigEndian(f.data[0..4]) == Pattern(p, 0x1_0000_0000)
      && BigEndian(f.data[4..6]) == Pattern(s, 0x1_0000) && BigEndian(f.data[6..8]) == Pattern(a, 0x1_0000)
  {
    Int32BigEndian(Int32Bytes(p), p);
    Int16BigEndian(Int16Bytes(s), s);
    Int16BigEndian(Int16Bytes(a), a);
    var data := PositionVelocityFrame(canId, p, s, a).data;
    assert data[0..4] == Int32Bytes(p) && data[4..6] == Int16Bytes(s) && data[6..8] == Int16Bytes(a);
  }

  /** The service frames, byte by byte. */
  lemma ServiceLayout(canId: uint8, x: bool, y: bool)
    ensures SetOriginFrame(canId, x) == CanFrame(0x500 + canId, 1, [if x then 1 else 0, 0, 0, 0, 0, 0, 0, 0])
    ensures DisableFrame(canId) == CanFrame(0xF00 + canId, 0, [0, 0, 0, 0, 0, 0, 0, 0])
    ensures FeedbackConfigFrame(canId, x, y) ==
            CanFrame(0x1000 + canId, 8, [0, 0, 0, 0, 0, 0, (if x then 0x80 else 0) + (if y then 0x40 else 0), 0])
  {
    ParamBytes(x, y);
  }

  lemma ParamBytes(x: bool, y: bool)
    ensures Int16Bytes(FeedbackParam(x, y)) == [(if x then 0x80 else 0) + (if y then 0x40 else 0), 0]
  {
  }

  // ---- reading commands back ----

  /** The content of a command frame in wire units. */
  datatype WireCommand =
    | Word(mode: uint8, value: int32)
    | PositionVelocity(position: int32, speed: int16, acceleration: int16)
    | SetOrigin(permanent: bool)
    | Disable
    | FeedbackConfig(extended: bool, singleTurn: bool)
    | Impedance(codes: Codes)

  predicate IsWordMode(mode: uint8) {
    || mode == MODE_DUTY || mode == MODE_CURRENT || mode == MODE_CURRENT_BRAKE
    || mode == MODE_VELOCITY || mode == MODE_POSITION
  }

  predicate IsCommandMode(mode: uint8) {
    IsWordMode(mode) || mode == MODE_SET_ORIGIN || mode == MODE_POSITION_VELOCITY || mode == MODE_MIT
    || mode == MODE_DISABLE || mode == MODE_FEEDBACK_CONFIG
  }

  /** How a motor reads a command frame. */
  function ReadCommand(frame: CanFrame): Option<WireCommand> {
    var mode := frame.id / 0x100;
    if mode <= 4 && frame.dlc == 4 then Some(Word(mode, GetInt32(frame.data, 0)))
    else if mode == MODE_SET_ORIGIN && frame.dlc == 1 then Some(SetOrigin(frame.data[0] == 1))
    else if mode == MODE_POSITION_VELOCITY && frame.dlc == 8 then
      Some(PositionVelocity(GetInt32(frame.data, 0), GetInt16(frame.data, 4), GetInt16(frame.data, 6)))
    else if mode == MODE_MIT && frame.dlc == 8 then Some(Impedance(UnpackCodes(frame.data)))
    else if mode == MODE_DISABLE && frame.dlc == 0 then Some(Disable)
    else if mode == MODE_FEEDBACK_CONFIG && frame.dlc == 8 then
      Some(FeedbackConfig((frame.data[6] as int) / 0x80 == 1, (frame.data[6] as int) / 0x40 % 2 == 1))
    else None
  }

  /** A signed word is read back unchanged, negatives included. */
  lemma ReadWord(mode: uint8, canId: uint8, value: int32)
    requires IsWordMode(mode)
    ensures ReadCommand(WordFrame(mode, canId, value)) == Some(Word(mode, value))
  {
    var data := WordFrame(mode, canId, value).data;
    assert data[0..4] == Int32Bytes(value);
    Int32RoundTrip(data, 0, value);
  }

  /** The three appends of a position-velocity command occupy disjoint slices and all read back. */
  lemma ReadPositionVelocity(canId: uint8, p: int32, s: int16, a: int16)
    ensures ReadCommand(PositionVelocityFrame(canId, p, s, a)) == Some(PositionVelocity(p, s, a))
  {
    var data := PositionVelocityFrame(canId, p, s, a).data;
    assert data[0..4] == Int32Bytes(p) && data[4..6] == Int16Bytes(s) && data[6..8] == Int16Bytes(a);
    Int32RoundTrip(data, 0, p);
    Int16RoundTrip(data, 4, s);
    Int16RoundTrip(data, 6, a);
  }

  /** An MIT frame is read as what it can carry of the quantised setpoint, which is the quantised
      setpoint itself exactly when every field is below its upper bound. */
  lemma ReadMit(canId: uint8, s: Setpoint, limits: Limits)
    requires limits.Valid()
    ensures ReadCommand(MitFrame(canId, s, limits)) == Some(Impedance(Carried(Quantise(s, limits))))
    ensures ReadCommand(MitFrame(canId, s, limits)) == Some(Impedance(Quantise(s, limits)))
       <==> BelowUpperBounds(s, limits)
  {
    UnpackExact(Quantise(s, limits));
    CodesRoundTrip(Quantise(s, limits));
  }

  lemma ReadServices(canId: uint8, x: bool, y: bool)
    ensures ReadCommand(SetOriginFrame(canId, x)) == Some(SetOrigin(x))
    ensures ReadCommand(DisableFrame(canId)) == Some(Disable)
    ensures ReadCommand(FeedbackConfigFrame(canId, x, y)) == Some(FeedbackConfig(x, y))
  {
  }

  // ---- feedback decoders ----

  datatype StatusFrame = StatusFrame(
    positionDeg: real, speedErpm: real, currentA: real, temperatureC: int8, errorCode: uint8)

  datatype ExtendedPositionFrame = ExtendedPositionFrame(positionDeg: real)

  function DecodeStatusFrame(frame: CanFrame, canId: uint8): Option<StatusFrame> {
    if frame.id != BuildCanId(FUNC_ID_STATUS, canId) || frame.dlc < 8 then None
    else Some(ScaledStatus(GetInt16(frame.data, 0), GetInt16(frame.data, 2), GetInt16(frame.data, 4),
                           ToInt8(frame.data[6]), frame.data[7]))
  }

  function DecodeExtendedPositionFrame(frame: CanFrame, canId: uint8): Option<ExtendedPositionFrame> {
    if frame.id != BuildCanId(FUNC_ID_EXT_POSITION, canId) || frame.dlc < 4 then None
    else Some(ScaledExtended(GetInt32(frame.data, 0)))
  }

  predicate IsStartupFrame(frame: CanFrame, canId: uint8) {
    frame.id == BuildCanId(FUNC_ID_STARTUP, canId) && frame.dlc >= 4 && frame.data[..4] == [0xFA, 0xFB, 0xFC, 0xFD]
  }

  /** The payload a motor sends for raw status fields. */
  function StatusBytes(p: int16, v: int16, c: int16, temperature: int8, error: uint8): Payload {
    Int16Bytes(p) + Int16Bytes(v) + Int16Bytes(c) + [(temperature as int) % 0x100, error]
  }

  /** The identifiers of the three feedback kinds, as numbers. */
  lemma FeedbackNumbers(canId: uint8)
    ensures BuildCanId(FUNC_ID_STATUS, canId) == 0x2900 + canId
    ensures BuildCanId(FUNC_ID_EXT_POSITION, canId) == 0x2A00 + canId
    ensures BuildCanId(FUNC_ID_STARTUP, canId) == 0x2C00 + canId
  {
  }

  /** The status of raw wire fields. */
  function ScaledStatus(p: int16, v: int16, c: int16, temperature: int8, error: uint8): StatusFrame {
    StatusFrame(p as real * 0.1, v as real * 10.0, c as real * 0.01, temperature, error)
  }

  /** Decoding gives a status of these tenths of a degree, tens of ERPM, hundredths of an ampere,
      temperature and error code exactly for the frames that carry them. */
  lemma DecodeStatusExact(f: CanFrame, canId: uint8,
                          p: int16, v: int16, c: int16, temperature: int8, error: uint8)
    ensures DecodeStatusFrame(f, canId).Some? <==> f.id == 0x2900 + canId && f.dlc >= 8
    ensures f.id == 0x2900 + canId && f.dlc >= 8 ==>
      var s := DecodeStatusFrame(f, canId).value;
      (&& s.positionDeg * 10.0 == p as real && s.speedErpm == 10.0 * v as real && s.currentA * 100.0 == c as real
       && s.temperatureC == temperature && s.errorCode == error
       <==> f.data == StatusBytes(p, v, c, temperature, error))
  {
    FeedbackNumbers(canId);
    var p', v', c' := GetInt16(f.data, 0), GetInt16(f.data, 2), GetInt16(f.data, 4);
    StatusSlices(f.data, p, v, c, temperature, error);
    ByteSign(f.data[6], temperature);
    Int16RoundTrip(f.data, 0, p);
    Int16RoundTrip(f.data, 2, v);
    Int16RoundTrip(f.data, 4, c);
  }

  lemma ByteSign(b: uint8, t: int8)
    ensures ToInt8(b) == t <==> b == (t as int) % 0x100
  {
  }

  lemma StatusSlices(data: Payload, p: int16, v: int16, c: int16, temperature: int8, error: uint8)
    ensures data == StatusBytes(p, v, c, temperature, error)
       <==> data[0..2] == Int16Bytes(p) && data[2..4] == Int16Bytes(v) && data[4..6] == Int16Bytes(c)
            && data[6] == (temperature as int) % 0x100 && data[7] == error
  {
  }

  /** The same for hundredths of a degree of extended position. */
  lemma DecodeExtendedExact(f: CanFrame, canId: uint8, p: int32)
    ensures DecodeExtendedPositionFrame(f, canId).Some? <==> f.id == 0x2A00 + canId && f.dlc >= 4
    ensures f.id == 0x2A00 + canId && f.dlc >= 4 ==>
      (DecodeExtendedPositionFrame(f, canId).value.positionDeg * 100.0 == p as real <==> f.data[..4] == Int32Bytes(p))
  {
    FeedbackNumbers(canId);
    Int32RoundTrip(f.data, 0, p);
    assert f.data[0..4] == f.data[..4];
  }

  function ScaledExtended(p: int32): ExtendedPositionFrame {
    ExtendedPositionFrame(p as real * 0.01)
  }

  lemma MarkerDigits(b0: uint8, b1: uint8, b2: uint8, b3: uint8)
    ensures (b0 as int) * 0x100_0000 + (b1 as int) * 0x1_0000 + (b2 as int) * 0x100 + b3 == 0xFAFB_FCFD
       <==> b0 == 0xFA && b1 == 0xFB && b2 == 0xFC && b3 == 0xFD
  {
  }

  /** The startup marker. */
  lemma StartupExact(f: CanFrame, canId: uint8)
    ensures IsStartupFrame(f, canId) <==> f.id == 0x2C00 + canId && f.dlc >= 4 && BigEndian(f.data[..4]) == 0xFAFB_FCFD
  {
    FeedbackNumbers(canId);
    var b := f.data[..4];
    BigEndianOfFour(b);
    MarkerDigits(b[0], b[1], b[2], b[3]);
  }

  predicate Accepts(frame: CanFrame, canId: uint8) {
    DecodeStatusFrame(frame, canId).Some? || DecodeExtendedPositionFrame(frame, canId).Some?
    || IsStartupFrame(frame, canId)
  }

  /** Own-traffic rejection: no frame with a command mode is feedback for any motor. */
  lemma CommandsAreNotFeedback(frame: CanFrame, mode: uint8, sender: uint8, receiver: uint8)
    requires frame.id == BuildCanId(mode, sender) && IsCommandMode(mode)
    ensures !Accepts(frame, receiver)
  {
  }

  /** The three feedback kinds are pairwise disjoint, whatever the motors, and a feedback frame
      belongs to one motor only. */
  lemma FeedbackIsUnambiguous(frame: CanFrame, c1: uint8, c2: uint8)
    ensures !(DecodeStatusFrame(frame, c1).Some? && DecodeExtendedPositionFrame(frame, c2).Some?)
    ensures !(DecodeStatusFrame(frame, c1).Some? && IsStartupFrame(frame, c2))
    ensures !(DecodeExtendedPositionFrame(frame, c1).Some? && IsStartupFrame(frame, c2))
    ensures Accepts(frame, c1) && Accepts(frame, c2) ==> c1 == c2
  {
  }
}
