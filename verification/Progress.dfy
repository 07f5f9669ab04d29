/** The hand-off never gets stuck. */
module Progress {
  import opened Messages
  import opened Steps
  import opened Schedules
  import opened History

  /** Neither a new frame nor a callback. */
  predicate NoInput(acts: seq<Action>) {
    forall a | a in acts :: !a.RxReceive? && !a.ExecCall?
  }

  /** Wherever the executor is in a drain, it can finish on its own. */
  lemma FinishExecutor(cfg: Config, s: State) returns (acts: seq<Action>)
    ensures DrainSteps(acts) && Run(cfg, s, acts).Some?
    ensures var t := Run(cfg, s, acts).value; t.exec.Idle? && t.rx == s.rx && t.received == s.received
    decreases if s.exec.Holding? then 2 else if s.exec.HalfSwapped? || s.exec.Mirroring? then 1 else 0
  {
    match s.exec
    case Idle => acts := [];
    case Draining(_, _) => acts := FinishDrain(cfg, s);
    case _ =>
      var a := if s.exec.Holding? then ExecSwapStatuses
               else if s.exec.HalfSwapped? then ExecSwapExtsUnlock else ExecPublishDiagnostic;
      var rest := FinishExecutor(cfg, Next(cfg, s, a));
      acts := [a] + rest;
      RunCons(cfg, s, a, rest);
  }

  /** Executor first, since RX may be waiting for its lock; then RX. */
  lemma ComeToRest(cfg: Config, s: State) returns (acts: seq<Action>)
    requires Exclusive(s)
    ensures NoInput(acts) && Run(cfg, s, acts).Some?
    ensures var t := Run(cfg, s, acts).value;
      t.exec.Idle? && t.rx.Polling? && t.mutex.None? && t.received == s.received
  {
    var a := FinishExecutor(cfg, s);
    ExclusiveRun(cfg, s, a);
    var b := SettleRx(cfg, Run(cfg, s, a).value);
    RunConcat(cfg, s, a, b);
    acts := a + b;
  }

  /** From every reachable state, without any further frame or callback, the two threads can get every
      frame received so far published or absorbed, each status with its state and its diagnostic. */
  lemma CatchesUp(cfg: Config, before: seq<Action>, s: State) returns (acts: seq<Action>)
    requires Reaches(cfg, before, s)
    ensures NoInput(acts) && Run(cfg, s, acts).Some?
    ensures var t := Run(cfg, s, acts).value;
      && t.received == s.received
      && t.core.consumed == StatusesIn(cfg.canId, s.received)
      && t.core.absorbed == ExtendedIn(cfg.canId, s.received)
      && |t.core.states| == |t.core.diagnostics| == |t.core.consumed|
  {
    ExclusiveRun(cfg, INIT, before);
    var a := ComeToRest(cfg, s);
    var b := DrainSchedule(cfg, Run(cfg, s, a).value);
    RunConcat(cfg, s, a, b);
    acts := a + b;
    RunConcat(cfg, INIT, before, acts);
    EverythingOut(cfg, before + acts, Run(cfg, s, acts).value);
  }

  /** With both threads at rest and the queues empty, the lines of conservation are what is out. */
  lemma EverythingOut(cfg: Config, acts: seq<Action>, t: State)
    requires Reaches(cfg, acts, t) && t.exec.Idle? && t.rx.Polling?
    requires t.core.statusQueue == [] && t.core.extQueue == []
    ensures t.core.consumed == StatusesIn(cfg.canId, t.received)
    ensures t.core.absorbed == ExtendedIn(cfg.canId, t.received)
    ensures |t.core.states| == |t.core.diagnostics| == |t.core.consumed|
  {
    Conservation(cfg, acts, t);
    Pairing(cfg, acts, t);
    assert StatusLine(cfg.canId, t) == t.core.consumed && ExtLine(cfg.canId, t) == t.core.absorbed;
  }
}
