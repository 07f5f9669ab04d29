/** Every interleaving publishes what some run with atomic drains publishes. */
module Reduction {
  import opened Options
  import opened Protocol
  import opened Messages
  import opened Atomic
  import opened Steps

  /** The atomic event an action completes: a push, the second queue swap, or a callback. */
  function EventOf(s: State, a: Action): seq<Event> {
    if a.RxPushUnlock? && s.rx.Locked? then [Deliver(s.rx.item)]
    else if a.ExecSwapExtsUnlock? then [Drain]
    else if a.ExecCall? then [Call(a.callback)]
    else []
  }

  /** The atomic events of a run, in the order they take effect. */
  function Trace(cfg: Config, acts: seq<Action>): seq<Event> {
    if acts == [] then []
    else
      var n := |acts| - 1;
      match Run(cfg, INIT, acts[..n])
      case None => []
      case Some(s) => Trace(cfg, acts[..n]) + EventOf(s, acts[n])
  }

  /** The data as it will be once the drain in progress has finished; before the second swap
      a drain has not taken effect, so the statuses it swapped out still count as queued. */
  function Settled(cfg: Config, s: State): Core {
    match s.exec
    case Idle => s.core
    case Holding => s.core
    case HalfSwapped(swapped) => s.core.(statusQueue := swapped + s.core.statusQueue)
    case Draining(exts, statuses) => Publish(cfg, s.core, exts, statuses)
    case Mirroring(status, rest) =>
      Publish(cfg, s.core.(diagnostics := s.core.diagnostics + [Diagnose(cfg, status)]), [], rest)
  }

  lemma PublishNothing(cfg: Config, core: Core)
    ensures Publish(cfg, core, [], []) == core
  {
  }

  lemma PublishAfterAbsorb(cfg: Config, core: Core, exts: seq<ExtendedPositionFrame>, statuses: seq<StatusFrame>)
    requires exts != []
    ensures var after := core.(cache := Some(exts[0].positionDeg), absorbed := core.absorbed + [exts[0]]);
      Publish(cfg, after, exts[1..], statuses) == Publish(cfg, core, exts, statuses)
  {
  }

  lemma PublishAfterOne(cfg: Config, core: Core, statuses: seq<StatusFrame>)
    requires statuses != []
    ensures var s := statuses[0];
      Publish(cfg, core.(consumed := core.consumed + [s], states := core.states + [Report(cfg, s, core.cache)],
                         diagnostics := core.diagnostics + [Diagnose(cfg, s)]), [], statuses[1..])
         == Publish(cfg, core, [], statuses)
  {
  }

  /** Each fine step is invisible or is exactly one atomic event. */
  lemma StepRefines(cfg: Config, s: State, a: Action)
    requires Exclusive(s) && Enabled(cfg, s, a)
    ensures AllAllowed(cfg, EventOf(s, a))
    ensures Settled(cfg, Next(cfg, s, a))
         == if EventOf(s, a) == [] then Settled(cfg, s) else Apply(cfg, Settled(cfg, s), EventOf(s, a)[0])
  {
    match a
    case RxPushUnlock => PushRefines(cfg, s);
    case ExecSwapExtsUnlock =>
      assert s.exec.swapped + s.core.statusQueue == s.exec.swapped;
    case ExecAbsorb => PublishAfterAbsorb(cfg, s.core, s.exec.exts, s.exec.statuses);
    case ExecPublishState => PublishAfterOne(cfg, s.core, s.exec.statuses);
    case ExecReturn => PublishNothing(cfg, s.core);
    case ExecSwapStatuses =>
      assert s.core.statusQueue + [] == s.core.statusQueue;
    case _ =>
  }

  lemma PushRefines(cfg: Config, s: State)
    requires Exclusive(s) && s.rx.Locked?
    ensures Settled(cfg, Next(cfg, s, RxPushUnlock)) == Push(Settled(cfg, s), s.rx.item)
  {
  }

  /** The settled data of every reachable state is that of the atomic run of its events. */
  lemma {:induction false} SettledIsReplay(cfg: Config, acts: seq<Action>, s: State)
    requires Reaches(cfg, acts, s)
    ensures AllAllowed(cfg, Trace(cfg, acts))
    ensures Settled(cfg, s) == Replay(cfg, Trace(cfg, acts))
  {
    if acts != [] {
      var before, a := acts[..|acts| - 1], acts[|acts| - 1];
      var prev := Run(cfg, INIT, before).value;
      SettledIsReplay(cfg, before, prev);
      ExclusiveRun(cfg, INIT, before);
      StepRefines(cfg, prev, a);
      ReplayMore(cfg, Trace(cfg, before), EventOf(prev, a));
    }
  }

  /** What is out is a prefix of what the drain in progress will have put out. */
  lemma SettledExtends(cfg: Config, s: State)
    ensures s.core.states <= Settled(cfg, s).states && s.core.diagnostics <= Settled(cfg, s).diagnostics
    ensures s.exec.Idle? ==> Settled(cfg, s) == s.core
  {
  }

  /** Reduction to atomic drains: for every interleaving, what is published so far is a prefix of what
      the atomic run of its events publishes, and the data is that run's whenever the executor is idle. */
  lemma Reduction(cfg: Config, acts: seq<Action>, s: State)
    requires Reaches(cfg, acts, s)
    ensures AllAllowed(cfg, Trace(cfg, acts))
    ensures s.core.states <= Replay(cfg, Trace(cfg, acts)).states
    ensures s.core.diagnostics <= Replay(cfg, Trace(cfg, acts)).diagnostics
    ensures s.exec.Idle? ==> s.core == Replay(cfg, Trace(cfg, acts))
  {
    SettledIsReplay(cfg, acts, s);
    SettledExtends(cfg, s);
  }

  lemma ReplayMore(cfg: Config, events: seq<Event>, more: seq<Event>)
    requires AllAllowed(cfg, events) && AllAllowed(cfg, more) && |more| <= 1
    ensures AllAllowed(cfg, events + more)
    ensures Replay(cfg, events + more)
         == if more == [] then Replay(cfg, events) else Apply(cfg, Replay(cfg, events), more[0])
  {
    if more == [] {
      assert events + more == events;
    } else {
      assert (events + more)[..|events + more| - 1] == events;
    }
  }
}
