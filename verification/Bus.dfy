/** Several nodes on one shared bus. Every node reads the whole trace of the bus, which holds what the
    motors send and every command frame that any node sends successfully. */
module Bus {
  import opened Numeric
  import opened Options
  import opened Sequences
  import opened Wire
  import opened CanSocket
  import opened Protocol
  import opened Messages
  import opened Atomic
  import opened Steps
  import opened History

  /** `cursors[i]` counts the frames node i has read. */
  datatype System = System(wire: seq<RawFrame>, nodes: seq<State>, cursors: seq<nat>)

  datatype BusAction = MotorSends(raw: RawFrame) | NodeActs(node: nat, action: Action)

  function Start(cfgs: seq<Config>): System {
    System([], seq(|cfgs|, _ => INIT), seq(|cfgs|, _ => 0))
  }

  predicate BusEnabled(cfgs: seq<Config>, b: System, x: BusAction)
    requires |b.nodes| == |b.cursors| == |cfgs|
  {
    match x
    case MotorSends(_) => true
    case NodeActs(i, a) =>
      && i < |cfgs| && Enabled(cfgs[i], b.nodes[i], a)
      && (a.RxReceive? ==> b.cursors[i] < |b.wire| && a.raw == b.wire[b.cursors[i]])
  }

  /** What an action puts on the bus. */
  function Emitted(cfg: Config, a: Action): seq<RawFrame>
    requires a.ExecCall? ==> Fits(cfg, a.callback)
  {
    if a.ExecCall? && a.sendOk && FrameFor(cfg, a.callback).Some? then
      FrameHeader(cfg, a.callback);
      [ToRaw(FrameFor(cfg, a.callback).value)]
    else []
  }

  function BusNext(cfgs: seq<Config>, b: System, x: BusAction): (c: System)
    requires |b.nodes| == |b.cursors| == |cfgs| && BusEnabled(cfgs, b, x)
    ensures |c.nodes| == |c.cursors| == |cfgs|
  {
    match x
    case MotorSends(raw) => b.(wire := b.wire + [raw])
    case NodeActs(i, a) =>
      System(b.wire + Emitted(cfgs[i], a),
             b.nodes[i := Next(cfgs[i], b.nodes[i], a)],
             if a.RxReceive? then b.cursors[i := b.cursors[i] + 1] else b.cursors)
  }

  function BusRun(cfgs: seq<Config>, xs: seq<BusAction>): (r: Option<System>)
    ensures r.Some? ==> |r.value.nodes| == |r.value.cursors| == |cfgs|
  {
    if xs == [] then Some(Start(cfgs))
    else
      var n := |xs| - 1;
      match BusRun(cfgs, xs[..n])
      case None => None
      case Some(b) => if BusEnabled(cfgs, b, xs[n]) then Some(BusNext(cfgs, b, xs[n])) else None
  }

  // ---- projections ----

  function ActionOf(i: nat): BusAction -> seq<Action> {
    (x: BusAction) => if x.NodeActs? && x.node == i then [x.action] else []
  }

  /** The actions of one node. */
  function Local(xs: seq<BusAction>, i: nat): seq<Action> {
    Gather(ActionOf(i), xs)
  }

  function ReadBy(a: Action): seq<RawFrame> {
    if a.RxReceive? then [a.raw] else []
  }

  /** The raw frames a node reads, in order. */
  function Raws(acts: seq<Action>): seq<RawFrame> {
    Gather(ReadBy, acts)
  }

  function SentByMotor(x: BusAction): seq<RawFrame> {
    if x.MotorSends? then [x.raw] else []
  }

  /** The frames the motors put on the bus. */
  function FromMotors(xs: seq<BusAction>): seq<RawFrame> {
    Gather(SentByMotor, xs)
  }

  /** The frames that are this node's own status or extended-position frames. */
  predicate Own(cfg: Config, raw: RawFrame) {
    var f := FromRaw(raw, FRESH);
    f.Some? && Decode(f.value, cfg.canId).Some?
  }

  function KeepOwn(cfg: Config): RawFrame -> seq<RawFrame> {
    (raw: RawFrame) => if Own(cfg, raw) then [raw] else []
  }

  function Filter(cfg: Config, wire: seq<RawFrame>): seq<RawFrame> {
    Gather(KeepOwn(cfg), wire)
  }

  // ---- each node alone ----

  /** What one bus action does to node i. */
  lemma BusStepFor(cfgs: seq<Config>, b: System, x: BusAction, i: nat)
    requires |b.nodes| == |b.cursors| == |cfgs| && BusEnabled(cfgs, b, x) && i < |cfgs|
    requires b.cursors[i] <= |b.wire|
    ensures var c := BusNext(cfgs, b, x);
      var mine := if x.NodeActs? && x.node == i then [x.action] else [];
      && b.wire <= c.wire && c.cursors[i] <= |c.wire|
      && c.nodes[i] == (if mine == [] then b.nodes[i] else Next(cfgs[i], b.nodes[i], mine[0]))
      && c.wire[..c.cursors[i]] == b.wire[..b.cursors[i]] + Raws(mine)
  {
    if x.NodeActs? && x.node == i {
      GatherOne(ReadBy, x.action);
    }
  }

  /** In the shared run, each node makes a run of its own and has read a prefix of the bus. */
  lemma {:induction false} ProjectRun(cfgs: seq<Config>, xs: seq<BusAction>, i: nat)
    requires BusRun(cfgs, xs).Some? && i < |cfgs|
    ensures var b := BusRun(cfgs, xs).value;
      && Reaches(cfgs[i], Local(xs, i), b.nodes[i])
      && b.cursors[i] <= |b.wire| && Raws(Local(xs, i)) == b.wire[..b.cursors[i]]
  {
    if xs != [] {
      var n := |xs| - 1;
      var x := xs[n];
      ProjectRun(cfgs, xs[..n], i);
      BusStepFor(cfgs, BusRun(cfgs, xs[..n]).value, x, i);
      var acts, mine := Local(xs[..n], i), if x.NodeActs? && x.node == i then [x.action] else [];
      GatherConcat(ReadBy, acts, mine);
      if mine == [] {
        assert acts + mine == acts;
      } else {
        RunSnoc(cfgs[i], INIT, acts, x.action);
      }
    }
  }

  predicate Foreign(cfg: Config, rx: RxPhase) {
    rx.Received? && Decode(rx.frame, cfg.canId).None?
  }

  /** The actions kept when foreign frames are taken off the bus. */
  function Kept(cfg: Config, s: State, a: Action): seq<Action> {
    if a.RxReceive? && !Own(cfg, a.raw) then []
    else if a.RxDecode? && Foreign(cfg, s.rx) then []
    else [a]
  }

  function Solo(cfg: Config, acts: seq<Action>): seq<Action> {
    if acts == [] then []
    else
      var n := |acts| - 1;
      match Run(cfg, INIT, acts[..n])
      case None => []
      case Some(s) => Solo(cfg, acts[..n]) + Kept(cfg, s, acts[n])
  }

  function KeepDecodable(canId: uint8): CanFrame -> seq<CanFrame> {
    (f: CanFrame) => if Decode(f, canId).Some? then [f] else []
  }

  /** The state without its traces of foreign frames. */
  function Quiet(cfg: Config, s: State): State {
    s.(rx := if Foreign(cfg, s.rx) then Polling else s.rx, received := Gather(KeepDecodable(cfg.canId), s.received))
  }

  lemma QuietStep(cfg: Config, s: State, a: Action)
    requires Enabled(cfg, s, a)
    ensures Kept(cfg, s, a) == [] ==> Quiet(cfg, Next(cfg, s, a)) == Quiet(cfg, s)
    ensures Kept(cfg, s, a) == [a] ==>
      Enabled(cfg, Quiet(cfg, s), a) && Next(cfg, Quiet(cfg, s), a) == Quiet(cfg, Next(cfg, s, a))
  {
    if a.RxReceive? {
      var f := FromRaw(a.raw, FRESH);
      if f.Some? {
        GatherSnoc(KeepDecodable(cfg.canId), s.received, f.value);
      }
    }
  }

  lemma KeptRaws(cfg: Config, s: State, a: Action)
    ensures Kept(cfg, s, a) == [] || Kept(cfg, s, a) == [a]
    ensures Raws(Kept(cfg, s, a)) == Filter(cfg, Raws([a]))
  {
    GatherOne(ReadBy, a);
    if a.RxReceive? {
      GatherOne(KeepOwn(cfg), a.raw);
    }
  }

  lemma SoloStep(cfg: Config, solo: seq<Action>, s: State, a: Action)
    requires Reaches(cfg, solo, Quiet(cfg, s)) && Enabled(cfg, s, a)
    ensures Reaches(cfg, solo + Kept(cfg, s, a), Quiet(cfg, Next(cfg, s, a)))
  {
    QuietStep(cfg, s, a);
    if Kept(cfg, s, a) == [] {
      assert solo + [] == solo;
    } else {
      RunSnoc(cfg, INIT, solo, a);
    }
  }

  lemma SoloRaws(cfg: Config, solo: seq<Action>, acts: seq<Action>, s: State, a: Action)
    requires Raws(solo) == Filter(cfg, Raws(acts))
    ensures Raws(solo + Kept(cfg, s, a)) == Filter(cfg, Raws(acts + [a]))
  {
    KeptRaws(cfg, s, a);
    GatherConcat(ReadBy, solo, Kept(cfg, s, a));
    GatherConcat(ReadBy, acts, [a]);
    GatherConcat(KeepOwn(cfg), Raws(acts), Raws([a]));
  }

  /** A node alone on the bus that carries only its own frames makes the same run. */
  lemma {:induction false} SoloRun(cfg: Config, acts: seq<Action>, s: State)
    requires Reaches(cfg, acts, s)
    ensures Reaches(cfg, Solo(cfg, acts), Quiet(cfg, s))
    ensures Raws(Solo(cfg, acts)) == Filter(cfg, Raws(acts))
  {
    if acts != [] {
      var before, a := acts[..|acts| - 1], acts[|acts| - 1];
      var prev := Run(cfg, INIT, before).value;
      assert acts == before + [a] && s == Next(cfg, prev, a);
      SoloRun(cfg, before, prev);
      var solo := Solo(cfg, before);
      SoloStep(cfg, solo, prev, a);
      SoloRaws(cfg, solo, before, prev, a);
      assert Solo(cfg, acts) == solo + Kept(cfg, prev, a);
    }
  }

  /** Command frames are nobody's own. */
  lemma CommandsAreForeign(cfg: Config, sender: Config, a: Action)
    requires a.ExecCall? ==> Fits(sender, a.callback)
    ensures Filter(cfg, Emitted(sender, a)) == []
  {
    var out := Emitted(sender, a);
    if out != [] {
      FrameHeader(sender, a.callback);
      var frame := FrameFor(sender, a.callback).value;
      FramingIdentity(frame);
      CommandsAreNotFeedback(frame, ModeByte(a.callback), sender.canId, cfg.canId);
      GatherOne(KeepOwn(cfg), out[0]);
    }
  }

  lemma BusStepOwn(cfgs: seq<Config>, b: System, x: BusAction, i: nat)
    requires |b.nodes| == |b.cursors| == |cfgs| && BusEnabled(cfgs, b, x) && i < |cfgs|
    ensures Filter(cfgs[i], BusNext(cfgs, b, x).wire)
         == Filter(cfgs[i], b.wire) + Filter(cfgs[i], if x.MotorSends? then [x.raw] else [])
  {
    match x
    case MotorSends(raw) => GatherConcat(KeepOwn(cfgs[i]), b.wire, [raw]);
    case NodeActs(j, a) =>
      CommandsAreForeign(cfgs[i], cfgs[j], a);
      GatherConcat(KeepOwn(cfgs[i]), b.wire, Emitted(cfgs[j], a));
  }

  /** The own frames on the bus are those the motors sent. */
  lemma {:induction false} OnlyMotorsMatter(cfgs: seq<Config>, xs: seq<BusAction>, i: nat)
    requires BusRun(cfgs, xs).Some? && i < |cfgs|
    ensures Filter(cfgs[i], BusRun(cfgs, xs).value.wire) == Filter(cfgs[i], FromMotors(xs))
  {
    if xs != [] {
      var n := |xs| - 1;
      OnlyMotorsMatter(cfgs, xs[..n], i);
      BusStepOwn(cfgs, BusRun(cfgs, xs[..n]).value, xs[n], i);
      GatherConcat(KeepOwn(cfgs[i]), FromMotors(xs[..n]), if xs[n].MotorSends? then [xs[n].raw] else []);
    }
  }

  /** Non-interference: whatever the other nodes do, everything node i has queued, cached, published
      and attempted is what it would have if it ran alone, with the same callbacks and schedule, on the
      part of the bus trace it has read, filtered to its own feedback frames. */
  lemma NonInterference(cfgs: seq<Config>, xs: seq<BusAction>, i: nat)
    requires BusRun(cfgs, xs).Some? && i < |cfgs|
    ensures var b := BusRun(cfgs, xs).value;
      var solo := Solo(cfgs[i], Local(xs, i));
      && Run(cfgs[i], INIT, solo).Some?
      && Run(cfgs[i], INIT, solo).value.core == b.nodes[i].core
      && b.cursors[i] <= |b.wire| && Raws(solo) == Filter(cfgs[i], b.wire[..b.cursors[i]])
      && Raws(solo) <= Filter(cfgs[i], FromMotors(xs))
  {
    var b := BusRun(cfgs, xs).value;
    ProjectRun(cfgs, xs, i);
    SoloRun(cfgs[i], Local(xs, i), b.nodes[i]);
    OnlyMotorsMatter(cfgs, xs, i);
    FilterPrefix(cfgs[i], b.wire, b.cursors[i]);
  }

  lemma FilterPrefix(cfg: Config, wire: seq<RawFrame>, n: nat)
    requires n <= |wire|
    ensures Filter(cfg, wire[..n]) <= Filter(cfg, wire)
  {
    assert wire == wire[..n] + wire[n..];
    GatherConcat(KeepOwn(cfg), wire[..n], wire[n..]);
  }

  // ---- what the wire carries ----

  /** What one action of a run adds to the wire. */
  function Traffic(cfgs: seq<Config>, x: BusAction): seq<RawFrame> {
    match x
    case MotorSends(raw) => [raw]
    case NodeActs(i, a) =>
      if i < |cfgs| && (a.ExecCall? ==> Fits(cfgs[i], a.callback)) then Emitted(cfgs[i], a) else []
  }

  function OnWire(cfgs: seq<Config>): BusAction -> seq<RawFrame> {
    (x: BusAction) => Traffic(cfgs, x)
  }

  function FromNode(cfgs: seq<Config>, i: nat): BusAction -> seq<RawFrame> {
    (x: BusAction) => if x.NodeActs? && x.node == i then Traffic(cfgs, x) else []
  }

  /** Whether the send of each attempt succeeded. */
  function OutcomeOf(a: Action): seq<bool> {
    if a.ExecCall? && Recognised(a.callback) then [a.sendOk] else []
  }

  function Outcomes(acts: seq<Action>): seq<bool> {
    Gather(OutcomeOf, acts)
  }

  predicate Sendable(attempts: seq<CanFrame>) {
    forall f | f in attempts :: f.dlc <= 8
  }

  /** The frames of the successful attempts, in order, as the kernel gets them. */
  function Succeeded(attempts: seq<CanFrame>, outcomes: seq<bool>): seq<RawFrame>
    requires |attempts| == |outcomes| && Sendable(attempts)
  {
    if attempts == [] then []
    else
      var n := |attempts| - 1;
      Succeeded(attempts[..n], outcomes[..n]) + if outcomes[n] then [ToRaw(attempts[n])] else []
  }

  lemma WireStep(cfgs: seq<Config>, b: System, x: BusAction)
    requires |b.nodes| == |b.cursors| == |cfgs| && BusEnabled(cfgs, b, x)
    ensures BusNext(cfgs, b, x).wire == b.wire + OnWire(cfgs)(x)
  {
  }

  /** The wire is what the motors and the nodes put on it, in the order of the run. */
  lemma {:induction false} WireIsTraffic(cfgs: seq<Config>, xs: seq<BusAction>)
    requires BusRun(cfgs, xs).Some?
    ensures BusRun(cfgs, xs).value.wire == Gather(OnWire(cfgs), xs)
  {
    if xs != [] {
      var n := |xs| - 1;
      WireIsTraffic(cfgs, xs[..n]);
      WireStep(cfgs, BusRun(cfgs, xs[..n]).value, xs[n]);
    }
  }

  lemma SucceededMore(attempts: seq<CanFrame>, outcomes: seq<bool>, f: CanFrame, ok: bool)
    requires |attempts| == |outcomes| && Sendable(attempts) && f.dlc <= 8
    ensures Sendable(attempts + [f])
    ensures Succeeded(attempts + [f], outcomes + [ok]) == Succeeded(attempts, outcomes) + if ok then [ToRaw(f)] else []
  {
    var n := |attempts|;
    assert (attempts + [f])[..n] == attempts && (outcomes + [ok])[..n] == outcomes;
  }

  /** What one action of a node adds to its attempts, and of these to the wire. */
  lemma AttemptStep(cfg: Config, s: State, a: Action, outcomes: seq<bool>)
    requires Enabled(cfg, s, a) && Sendable(s.core.attempts) && |outcomes| == |s.core.attempts|
    ensures var attempts, after := Next(cfg, s, a).core.attempts, outcomes + OutcomeOf(a);
      && |attempts| == |after| && Sendable(attempts)
      && Succeeded(attempts, after) == Succeeded(s.core.attempts, outcomes) + Emitted(cfg, a)
  {
    if a.ExecCall? && Recognised(a.callback) {
      FrameHeader(cfg, a.callback);
      SucceededMore(s.core.attempts, outcomes, FrameFor(cfg, a.callback).value, a.sendOk);
    } else {
      if a.ExecCall? {
        FrameHeader(cfg, a.callback);
      }
      assert Next(cfg, s, a).core.attempts == s.core.attempts && outcomes + [] == outcomes;
    }
  }

  /** What one bus action adds to node i's attempts and to its part of the wire. */
  lemma NodeTraffic(cfgs: seq<Config>, b: System, x: BusAction, i: nat, acts: seq<Action>)
    requires |b.nodes| == |b.cursors| == |cfgs| && BusEnabled(cfgs, b, x) && i < |cfgs|
    requires Sendable(b.nodes[i].core.attempts) && |Outcomes(acts)| == |b.nodes[i].core.attempts|
    ensures var attempts, after := BusNext(cfgs, b, x).nodes[i].core.attempts, Outcomes(acts + ActionOf(i)(x));
      && |attempts| == |after| && Sendable(attempts)
      && Succeeded(attempts, after) == Succeeded(b.nodes[i].core.attempts, Outcomes(acts)) + FromNode(cfgs, i)(x)
  {
    if x.NodeActs? && x.node == i {
      GatherSnoc(OutcomeOf, acts, x.action);
      AttemptStep(cfgs[i], b.nodes[i], x.action, Outcomes(acts));
      assert FromNode(cfgs, i)(x) == Emitted(cfgs[i], x.action);
    } else {
      assert acts + [] == acts;
    }
  }

  /** Of each node, the wire carries exactly the successful attempts of its history, in order. */
  lemma {:induction false} SuccessesOnWire(cfgs: seq<Config>, xs: seq<BusAction>, i: nat)
    requires BusRun(cfgs, xs).Some? && i < |cfgs|
    ensures var attempts, outcomes := BusRun(cfgs, xs).value.nodes[i].core.attempts, Outcomes(Local(xs, i));
      && |attempts| == |outcomes| && Sendable(attempts)
      && Gather(FromNode(cfgs, i), xs) == Succeeded(attempts, outcomes)
  {
    if xs != [] {
      var n := |xs| - 1;
      SuccessesOnWire(cfgs, xs[..n], i);
      NodeTraffic(cfgs, BusRun(cfgs, xs[..n]).value, xs[n], i, Local(xs[..n], i));
    }
  }

  // ---- who queues what ----

  ghost predicate DistinctIds(cfgs: seq<Config>) {
    forall i, j | 0 <= i < j < |cfgs| :: cfgs[i].canId != cfgs[j].canId
  }

  function Surface(raw: RawFrame): seq<CanFrame> {
    match FromRaw(raw, FRESH) case Some(f) => [f] case None => []
  }

  /** The frames of a stretch of the bus that pass the socket's filter. */
  function Surfaced(wire: seq<RawFrame>): seq<CanFrame> {
    Gather(Surface, wire)
  }

  lemma ReceivedStep(cfg: Config, s: State, a: Action)
    requires Enabled(cfg, s, a)
    ensures Next(cfg, s, a).received == s.received + Surfaced(Raws([a]))
  {
    GatherOne(ReadBy, a);
    if a.RxReceive? {
      GatherOne(Surface, a.raw);
    }
  }

  lemma {:induction false} ReceivedIsSurfaced(cfg: Config, acts: seq<Action>, s: State)
    requires Reaches(cfg, acts, s)
    ensures s.received == Surfaced(Raws(acts))
  {
    if acts != [] {
      var n := |acts| - 1;
      var prev := Run(cfg, INIT, acts[..n]).value;
      ReceivedIsSurfaced(cfg, acts[..n], prev);
      ReceivedStep(cfg, prev, acts[n]);
      GatherConcat(ReadBy, acts[..n], [acts[n]]);
      GatherConcat(Surface, Raws(acts[..n]), Raws([acts[n]]));
      assert acts[..n] + [acts[n]] == acts;
    }
  }

  /** Each node's statuses, published, drained, queued or in hand, are the decodes of its own status
      frames on the stretch of bus it has read, and no bus frame is own to two nodes. */
  lemma EachFrameForOneNode(cfgs: seq<Config>, xs: seq<BusAction>)
    requires BusRun(cfgs, xs).Some? && DistinctIds(cfgs)
    ensures var b := BusRun(cfgs, xs).value;
      && (forall i | 0 <= i < |cfgs| :: b.cursors[i] <= |b.wire|
            && StatusLine(cfgs[i].canId, b.nodes[i]) == StatusesIn(cfgs[i].canId, Surfaced(b.wire[..b.cursors[i]]))
            && ExtLine(cfgs[i].canId, b.nodes[i]) == ExtendedIn(cfgs[i].canId, Surfaced(b.wire[..b.cursors[i]])))
      && (forall k, i, j | 0 <= k < |b.wire| && 0 <= i < |cfgs| && 0 <= j < |cfgs|
            && Own(cfgs[i], b.wire[k]) && Own(cfgs[j], b.wire[k]) :: i == j)
  {
    var b := BusRun(cfgs, xs).value;
    forall i | 0 <= i < |cfgs|
      ensures b.cursors[i] <= |b.wire|
      ensures StatusLine(cfgs[i].canId, b.nodes[i]) == StatusesIn(cfgs[i].canId, Surfaced(b.wire[..b.cursors[i]]))
      ensures ExtLine(cfgs[i].canId, b.nodes[i]) == ExtendedIn(cfgs[i].canId, Surfaced(b.wire[..b.cursors[i]]))
    {
      ProjectRun(cfgs, xs, i);
      ReceivedIsSurfaced(cfgs[i], Local(xs, i), b.nodes[i]);
      Conservation(cfgs[i], Local(xs, i), b.nodes[i]);
    }
    forall k, i, j | 0 <= k < |b.wire| && 0 <= i < |cfgs| && 0 <= j < |cfgs|
      && Own(cfgs[i], b.wire[k]) && Own(cfgs[j], b.wire[k])
      ensures i == j
    {
      OwnedByOne(cfgs[i], cfgs[j], b.wire[k]);
    }
  }

  lemma OwnedByOne(c: Config, d: Config, raw: RawFrame)
    requires Own(c, raw) && Own(d, raw)
    ensures c.canId == d.canId
  {
    FeedbackIsUnambiguous(FromRaw(raw, FRESH).value, c.canId, d.canId);
  }
}
