/** Direction inversion: on the wire, and across whole runs of feedback. */
module Direction {
  import opened Numeric
  import opened Options
  import opened Quantizer
  import opened Mit
  import opened Protocol
  import opened Messages
  import opened Atomic
  import opened Steps

  // ---- commands ----

  /** The command that asks for the opposite motion; gains and braking magnitude have no direction. */
  function Opposite(cb: Callback): Callback {
    match cb
    case Command(m) =>
      Command(m.(duty := -m.duty, velocity := -m.velocity, position := -m.position, acceleration := -m.acceleration,
                 current := if m.mode == MODE_CURRENT_BRAKE then m.current else -m.current,
                 mitVelocity := -m.mitVelocity, mitTorque := -m.mitTorque))
    case _ => cb
  }

  /** An inverted node acts on a command exactly as a plain node acts on the opposite one. */
  lemma InvertedNodeSendsOpposite(cfg: Config, cb: Callback)
    ensures Fits(cfg.Flipped(), cb) <==> Fits(cfg, Opposite(cb))
    ensures Fits(cfg, Opposite(cb)) ==> FrameFor(cfg.Flipped(), cb) == FrameFor(cfg, Opposite(cb))
  {
    SameIntent(cfg, cb);
  }

  lemma SameIntent(cfg: Config, cb: Callback)
    ensures IntentOf(cfg.Flipped(), cb) == IntentOf(cfg, Opposite(cb))
  {
  }

  /** How the wire content of a command answers to a reversal of its direction. */
  predicate WireOpposite(mode: uint8, x: WireCommand, y: WireCommand) {
    match (x, y)
    case (Word(m, v), Word(n, w)) => m == n && (w as int) == if mode == MODE_CURRENT_BRAKE then v else -(v as int)
    case (PositionVelocity(p, s, a), PositionVelocity(q, t, b)) =>
      q as int == -(p as int) && t as int == -(s as int) && b as int == -(a as int)
    case _ => x == y
  }

  /** Reversing a servo command exactly negates every signed integer field of its frame. */
  lemma WireFieldsNegate(cfg: Config, cb: Callback)
    requires Fits(cfg, cb) && Fits(cfg, Opposite(cb)) && ModeByte(cb) != MODE_MIT && Recognised(cb)
    ensures FrameFor(cfg, cb).Some? && FrameFor(cfg, Opposite(cb)).Some?
    ensures var x, y := ReadCommand(FrameFor(cfg, cb).value), ReadCommand(FrameFor(cfg, Opposite(cb)).value);
      x.Some? && y.Some? && WireOpposite(ModeByte(cb), x.value, y.value)
  {
    FrameHeader(cfg, cb);
    FrameHeader(cfg, Opposite(cb));
    FrameReadsBack(cfg, cb);
    FrameReadsBack(cfg, Opposite(cb));
    IntentNegates(cfg, cb);
    match IntentOf(cfg, cb)
    case WordIntent(_, value) => TruncOdd(value);
    case PositionVelocityIntent(p, s, a) =>
      TruncOdd(p);
      TruncOdd(s);
      TruncOdd(a);
    case _ =>
  }

  lemma IntentNegates(cfg: Config, cb: Callback)
    requires Recognised(cb) && ModeByte(cb) != MODE_MIT
    ensures match (IntentOf(cfg, cb), IntentOf(cfg, Opposite(cb)))
      case (WordIntent(m, v), WordIntent(n, w)) =>
        m == n == ModeByte(cb) && w == if m == MODE_CURRENT_BRAKE then v else -v
      case (PositionVelocityIntent(p, s, a), PositionVelocityIntent(q, t, b)) => q == -p && t == -s && b == -a
      case (x, y) => x == y && x.ServiceIntent?
  {
  }

  /** Reversing an MIT setpoint with symmetric ranges reflects the three signed codes about the middle
      of their range, one short when the value is off the grid, and keeps the gains. */
  lemma MitCodesReflect(s: Setpoint, limits: Limits)
    requires limits.Valid() && limits.velocityMin == -limits.velocityMax && limits.torqueMin == -limits.torqueMax
    ensures var r := s.(position := -s.position, velocity := -s.velocity, torque := -s.torque);
      var c, d := Quantise(s, limits), Quantise(r, limits);
      && c.kp == d.kp && c.kd == d.kd
      && c.p + d.p == (if OnGrid(s.position, POSITION_MIN, POSITION_MAX, 16) then 0x1_0000 else 0xFFFF)
      && c.v + d.v == (if OnGrid(s.velocity, limits.velocityMin, limits.velocityMax, 12) then 0x1000 else 0xFFF)
      && c.t + d.t == (if OnGrid(s.torque, limits.torqueMin, limits.torqueMax, 12) then 0x1000 else 0xFFF)
  {
    Pow2Values();
    Reflection(s.position, POSITION_MAX, 16);
    Reflection(s.velocity, limits.velocityMax, 12);
    Reflection(s.torque, limits.torqueMax, 12);
  }

  // ---- feedback ----

  function Reversed(m: MotorState): MotorState {
    m.(position := -m.position, velocity := -m.velocity, current := -m.current, estimatedTorque := -m.estimatedTorque)
  }

  lemma ReportReversed(cfg: Config, status: StatusFrame, cache: Option<real>)
    ensures Report(cfg.Flipped(), status, cache) == Reversed(Report(cfg, status, cache))
  {
  }

  /** Two states that agree but for the direction of what was published (and what was commanded). */
  ghost predicate Mirror(s: State, t: State) {
    && t == s.(core := s.core.(states := t.core.states, attempts := t.core.attempts))
    && |t.core.states| == |s.core.states|
    && forall i | 0 <= i < |s.core.states| :: t.core.states[i] == Reversed(s.core.states[i])
  }

  ghost predicate AllFit(cfg: Config, acts: seq<Action>) {
    forall a | a in acts && a.ExecCall? :: Fits(cfg, a.callback)
  }

  lemma AllFitMore(cfg: Config, before: seq<Action>, a: Action)
    ensures AllFit(cfg, before + [a]) <==> AllFit(cfg, before) && (a.ExecCall? ==> Fits(cfg, a.callback))
  {
    assert forall b :: b in before + [a] <==> b in before || b == a;
  }

  lemma MirrorStep(cfg: Config, s: State, t: State, a: Action)
    requires Mirror(s, t) && Enabled(cfg, s, a) && (a.ExecCall? ==> Fits(cfg.Flipped(), a.callback))
    ensures Enabled(cfg.Flipped(), t, a) && Mirror(Next(cfg, s, a), Next(cfg.Flipped(), t, a))
  {
    if a.ExecPublishState? {
      ReportReversed(cfg, s.exec.statuses[0], s.core.cache);
    }
  }

  /** Two-run feedback symmetry: on the same frames and the same schedule, a node with the other
      direction setting makes the same run, provided only that its commands are defined, and publishes
      equally many states, pointwise reversed. */
  lemma {:induction false} FeedbackSymmetry(cfg: Config, acts: seq<Action>, s: State)
    requires Reaches(cfg, acts, s)
    ensures Run(cfg.Flipped(), INIT, acts).Some? <==> AllFit(cfg.Flipped(), acts)
    ensures AllFit(cfg.Flipped(), acts) ==> Mirror(s, Run(cfg.Flipped(), INIT, acts).value)
  {
    if acts != [] {
      var before, a := acts[..|acts| - 1], acts[|acts| - 1];
      var prev := Run(cfg, INIT, before).value;
      FeedbackSymmetry(cfg, before, prev);
      AllFitMore(cfg.Flipped(), before, a);
      assert acts == before + [a];
      if AllFit(cfg.Flipped(), acts) {
        MirrorStep(cfg, prev, Run(cfg.Flipped(), INIT, before).value, a);
      }
    }
  }

  /** The action with its command, if it is one, reversed. */
  function TurnedAction(a: Action): Action {
    if a.ExecCall? then a.(callback := Opposite(a.callback)) else a
  }

  function Turned(acts: seq<Action>): seq<Action> {
    seq(|acts|, i requires 0 <= i < |acts| => TurnedAction(acts[i]))
  }

  lemma OppositeTwice(cfg: Config, cb: Callback)
    ensures Opposite(Opposite(cb)) == cb
    ensures Fits(cfg.Flipped(), Opposite(cb)) <==> Fits(cfg, cb)
    ensures Fits(cfg, cb) ==> FrameFor(cfg.Flipped(), Opposite(cb)) == FrameFor(cfg, cb)
  {
    InvertedNodeSendsOpposite(cfg, Opposite(cb));
  }

  lemma TurnedStep(cfg: Config, s: State, t: State, a: Action)
    requires Mirror(s, t) && s.core.attempts == t.core.attempts && Enabled(cfg, s, a)
    ensures Enabled(cfg.Flipped(), t, TurnedAction(a))
    ensures Mirror(Next(cfg, s, a), Next(cfg.Flipped(), t, TurnedAction(a)))
    ensures Next(cfg, s, a).core.attempts == Next(cfg.Flipped(), t, TurnedAction(a)).core.attempts
  {
    if a.ExecCall? {
      OppositeTwice(cfg, a.callback);
    } else {
      MirrorStep(cfg, s, t, a);
    }
  }

  /** The direction setting is a mere change of sign at the ROS side: reverse it together with every
      command, and the node sends the very same frames and publishes the reversed states. */
  lemma {:induction false} TurnedRun(cfg: Config, acts: seq<Action>, s: State)
    requires Reaches(cfg, acts, s)
    ensures Run(cfg.Flipped(), INIT, Turned(acts)).Some?
    ensures var t := Run(cfg.Flipped(), INIT, Turned(acts)).value;
      Mirror(s, t) && t.core.attempts == s.core.attempts
  {
    if acts != [] {
      var n := |acts| - 1;
      var prev := Run(cfg, INIT, acts[..n]).value;
      TurnedRun(cfg, acts[..n], prev);
      assert Turned(acts)[..n] == Turned(acts[..n]);
      TurnedStep(cfg, prev, Run(cfg.Flipped(), INIT, Turned(acts[..n])).value, acts[n]);
    }
  }
}
