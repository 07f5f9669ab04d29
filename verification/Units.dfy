/** Motor models and the unit conversions at the CAN boundary, in exact arithmetic. */
module Units {
  import opened Numeric

  const PI := 3.14159265358979323846

  datatype MotorSpec = MotorSpec(
    torqueCoefficient: real,
    velocityMin: real, velocityMax: real,
    torqueMin: real, torqueMax: real,
    polePairs: real, gearRatio: real)
  {
    predicate Valid() {
      velocityMin < velocityMax && torqueMin < torqueMax && polePairs > 0.0 && gearRatio > 0.0
    }
  }

  /** The motor table. */
  const MOTOR_TABLE: map<string, MotorSpec> := map[
    "AK10-9" := MotorSpec(1.3137, -28.0, 28.0, -54.0, 54.0, 21.0, 9.0),
    "AK60-6" := MotorSpec(0.5994, -60.0, 60.0, -12.0, 12.0, 14.0, 6.0),
    "AK60-39" := MotorSpec(3.4616, -10.0, 10.0, -80.0, 80.0, 14.0, 39.0),
    "AK70-9" := MotorSpec(1.0621, -30.0, 30.0, -32.0, 32.0, 21.0, 9.0),
    "AK80-8" := MotorSpec(1.0569, -38.0, 38.0, -32.0, 32.0, 21.0, 8.0),
    "AK80-9" := MotorSpec(0.5701, -65.0, 65.0, -18.0, 18.0, 21.0, 9.0)]

  function RadToDeg(rad: real): real { rad * (180.0 / PI) }

  function DegToRad(deg: real): real { deg * (PI / 180.0) }

  function RadPerSecToErpm(radS: real, spec: MotorSpec): real {
    var outputRpm := radS * 60.0 / (2.0 * PI);
    outputRpm * spec.polePairs * spec.gearRatio
  }

  function ErpmToRadPerSec(erpm: real, spec: MotorSpec): real
    requires spec.Valid()
  {
    var denom := spec.polePairs * spec.gearRatio;
    var outputRpm := erpm / denom;
    outputRpm * 2.0 * PI / 60.0
  }

  lemma DegreesRoundTrip(x: real)
    ensures RadToDeg(DegToRad(x)) == x && DegToRad(RadToDeg(x)) == x
  {
  }

  /** The two velocity conversions are inverse to each other. */
  lemma VelocityRoundTrip(x: real, spec: MotorSpec)
    requires spec.Valid()
    ensures ErpmToRadPerSec(RadPerSecToErpm(x, spec), spec) == x
    ensures RadPerSecToErpm(ErpmToRadPerSec(x, spec), spec) == x
  {
  }

  /** One radian is 57.2957795... degrees. */
  lemma DegreesPerRadian(x: real)
    requires x > 0.0
    ensures 57.29577951 * x < RadToDeg(x) < 57.29577952 * x
  {
  }

  /** One rad/s is 9.5492965... turns a minute, times the pole pairs and the gear ratio. */
  lemma ErpmPerRadian(x: real, spec: MotorSpec)
    requires spec.Valid() && x > 0.0
    ensures var motor := x * spec.polePairs * spec.gearRatio;
      9.549296585 * motor < RadPerSecToErpm(x, spec) < 9.549296586 * motor
  {
    var rpm := x * 60.0 / (2.0 * PI);
    assert 9.549296585 * x < rpm < 9.549296586 * x;
    Geared(9.549296585, x, rpm, spec.polePairs, spec.gearRatio);
    Geared(-9.549296586, x, -rpm, spec.polePairs, spec.gearRatio);
  }

  lemma Geared(k: real, x: real, rpm: real, polePairs: real, gearRatio: real)
    requires k * x < rpm && polePairs > 0.0 && gearRatio > 0.0
    ensures k * (x * polePairs * gearRatio) < rpm * polePairs * gearRatio
  {
    PositiveProduct(rpm - k * x, polePairs);
    PositiveProduct((rpm - k * x) * polePairs, gearRatio);
  }

  /** The velocity of one ERPM. */
  function ErpmStep(spec: MotorSpec): real
    requires spec.Valid()
  {
    Gearing(spec);
    2.0 * PI / (60.0 * (spec.polePairs * spec.gearRatio))
  }

  lemma Gearing(spec: MotorSpec)
    requires spec.Valid()
    ensures spec.polePairs * spec.gearRatio > 0.0
  {
  }

  lemma ErpmLinear(x: real, spec: MotorSpec)
    requires spec.Valid()
    ensures ErpmToRadPerSec(x, spec) == x * ErpmStep(spec) && ErpmStep(spec) > 0.0
  {
    Gearing(spec);
    var d := spec.polePairs * spec.gearRatio;
    DividesOut(x, d);
  }

  lemma DividesOut(x: real, d: real)
    requires d > 0.0
    ensures x / d * 2.0 * PI / 60.0 == x * (2.0 * PI / (60.0 * d)) && 2.0 * PI / (60.0 * d) > 0.0
  {
  }

  lemma TowardConverted(y: real, x: real, unit: real, k: real, converted: real, wanted: real)
    requires Toward(y, x, unit) && k > 0.0 && converted == y * k && wanted == x * k
    ensures Toward(converted, wanted, unit * k)
  {
    TowardScaled(y, x, unit, k);
  }

  /** A value and its stand-in on the wire, both converted to rad/s. */
  lemma ErpmToward(y: real, x: real, unit: real, spec: MotorSpec)
    requires spec.Valid() && Toward(y, x, unit)
    ensures Toward(ErpmToRadPerSec(y, spec), ErpmToRadPerSec(x, spec), unit * ErpmStep(spec))
  {
    ErpmLinear(x, spec);
    ErpmLinear(y, spec);
    TowardConverted(y, x, unit, ErpmStep(spec), ErpmToRadPerSec(y, spec), ErpmToRadPerSec(x, spec));
  }

  /** The whole ERPM that goes on the wire stands for a velocity with no opposite sign,
      no greater magnitude, and less than one ERPM away from the requested one. */
  lemma VelocityPath(v: real, spec: MotorSpec)
    requires spec.Valid()
    ensures var back := ErpmToRadPerSec(Trunc(RadPerSecToErpm(v, spec)) as real, spec);
      Toward(back, v, ErpmStep(spec))
  {
    TruncToward(RadPerSecToErpm(v, spec));
    ErpmToward(Trunc(RadPerSecToErpm(v, spec)) as real, RadPerSecToErpm(v, spec), 1.0, spec);
    VelocityRoundTrip(v, spec);
  }

  // ---- no overflow ----

  predicate InTable(spec: MotorSpec) { spec in MOTOR_TABLE.Values }

  /** Every motor of the table has proper ranges, symmetric about zero, and positive gearing. */
  lemma TableIsValid(spec: MotorSpec)
    requires InTable(spec)
    ensures spec.Valid() && spec.velocityMin == -spec.velocityMax && spec.torqueMin == -spec.torqueMax
  {
  }

  /** Within the velocity range of every motor in the table, ERPM fits the 32-bit field of velocity
      mode, and a tenth of it fits the 16-bit field of position-velocity mode. */
  lemma TableVelocitiesFit(spec: MotorSpec, v: real)
    requires InTable(spec) && spec.velocityMin <= v <= spec.velocityMax
    ensures FitsInt32(RadPerSecToErpm(v, spec)) && FitsInt16(RadPerSecToErpm(v, spec) / 10.0)
  {
  }

  /** The documented position and duty domains fit their 32-bit fields. */
  lemma DocumentedDomainsFit(positionDeg: real, duty: real)
    requires -36000.0 <= positionDeg <= 36000.0 && -1.0 <= duty <= 1.0
    ensures FitsInt32(positionDeg * 10000.0) && FitsInt32(duty * 100000.0)
  {
  }
}
