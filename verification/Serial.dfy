/** Serial runs, in which each thread moves only while the other is at rest, and the equivalence of
    every interleaving with one of them. */
module Serial {
  import opened CanSocket
  import opened Messages
  import opened Atomic
  import opened Steps
  import opened Reduction
  import opened Schedules

  /** RX moves only while the executor is idle, and the executor only while RX holds no frame. */
  ghost predicate SerialRun(cfg: Config, acts: seq<Action>) {
    acts == [] ||
    var n := |acts| - 1;
    SerialRun(cfg, acts[..n]) &&
    match Run(cfg, INIT, acts[..n])
    case None => false
    case Some(s) => if ByRx(acts[n]) then s.exec.Idle? else s.rx.Polling?
  }

  /** All steps by one thread. */
  predicate OneThread(acts: seq<Action>) {
    (forall a | a in acts :: ByRx(a)) || (forall a | a in acts :: !ByRx(a))
  }

  /** A stretch by one thread leaves the other where it was. */
  lemma {:induction false} OtherAtRest(cfg: Config, s: State, acts: seq<Action>)
    requires Run(cfg, s, acts).Some?
    ensures (forall a | a in acts :: ByRx(a)) ==> Run(cfg, s, acts).value.exec == s.exec
    ensures (forall a | a in acts :: !ByRx(a)) ==>
            Run(cfg, s, acts).value.rx == s.rx && Run(cfg, s, acts).value.received == s.received
  {
    if acts != [] {
      OtherAtRest(cfg, s, acts[..|acts| - 1]);
      assert acts[|acts| - 1] in acts;
    }
  }

  lemma {:induction false} SerialMore(cfg: Config, a: seq<Action>, t: State, b: seq<Action>)
    requires Reaches(cfg, a, t) && SerialRun(cfg, a) && t.rx.Polling? && t.exec.Idle?
    requires Run(cfg, t, b).Some? && OneThread(b)
    ensures SerialRun(cfg, a + b)
  {
    if b == [] {
      assert a + b == a;
    } else {
      var n := |b| - 1;
      assert (a + b)[..|a + b| - 1] == a + b[..n];
      SerialMore(cfg, a, t, b[..n]);
      RunConcat(cfg, INIT, a, b[..n]);
      OtherAtRest(cfg, t, b[..n]);
      assert b[n] in b;
    }
  }

  /** Every atomic run of possible events is a serial run of the two threads. */
  lemma {:induction false} AtomicRunIsSerial(cfg: Config, events: seq<Event>) returns (acts: seq<Action>, s: State)
    requires forall e | e in events :: Possible(cfg, e)
    ensures AllAllowed(cfg, events)
    ensures Reaches(cfg, acts, s) && SerialRun(cfg, acts) && s.rx.Polling? && s.exec.Idle? && s.mutex.None?
    ensures s.core == Replay(cfg, events)
  {
    if events == [] {
      acts, s := [], INIT;
    } else {
      var n := |events| - 1;
      var a, t := AtomicRunIsSerial(cfg, events[..n]);
      assert Possible(cfg, events[n]) by { assert events[n] in events; }
      var b := EventSchedule(cfg, t, events[n]);
      RunConcat(cfg, INIT, a, b);
      SerialMore(cfg, a, t, b);
      acts, s := a + b, Run(cfg, t, b).value;
    }
  }

  lemma EventSchedule(cfg: Config, t: State, e: Event) returns (acts: seq<Action>)
    requires Possible(cfg, e) && t.rx.Polling? && t.exec.Idle? && t.mutex.None?
    ensures OneThread(acts) && Run(cfg, t, acts).Some?
    ensures var s := Run(cfg, t, acts).value;
      s == t.(core := Apply(cfg, t.core, e), received := s.received)
  {
    match e
    case Deliver(item) => acts := DeliverSchedule(cfg, t, item);
    case Drain => acts := DrainSchedule(cfg, t);
    case Call(cb) =>
      acts := [ExecCall(cb, true)] + [];
      RunCons(cfg, t, ExecCall(cb, true), []);
  }

  lemma RxStretch(acts: seq<Action>)
    requires acts != [] && acts[0].RxReceive? && RxSteps(acts[1..])
    ensures OneThread(acts)
  {
    forall a | a in acts
      ensures ByRx(a)
    {
      assert a == acts[0] || a in acts[1..];
    }
  }

  lemma DeliverSchedule(cfg: Config, t: State, item: Item) returns (acts: seq<Action>)
    requires Possible(cfg, Deliver(item)) && t.rx.Polling? && t.exec.Idle? && t.mutex.None?
    ensures OneThread(acts) && Run(cfg, t, acts).Some?
    ensures var s := Run(cfg, t, acts).value;
      s == t.(core := Push(t.core, item), received := s.received)
  {
    var frame :| CarriesItem(cfg, frame, item);
    ItemArrives(cfg, frame, item);
    acts := RxSchedule(cfg, t, ToRaw(frame));
    RxStretch(acts);
    PushOne(t.core, item);
  }

  // ---- the events of a run ----

  /** RX holds only what some frame on the bus carried. */
  ghost predicate HandPossible(cfg: Config, rx: RxPhase) {
    match rx
    case Polling => true
    case Received(frame) => frame.dlc <= 8
    case Decoded(item) => Possible(cfg, Deliver(item))
    case Locked(item) => Possible(cfg, Deliver(item))
  }

  lemma HandStep(cfg: Config, s: State, a: Action)
    requires HandPossible(cfg, s.rx) && Enabled(cfg, s, a)
    ensures HandPossible(cfg, Next(cfg, s, a).rx)
    ensures forall e | e in EventOf(s, a) :: Possible(cfg, e)
  {
    if a.RxDecode? && Decode(s.rx.frame, cfg.canId).Some? {
      assert CarriesItem(cfg, s.rx.frame, Decode(s.rx.frame, cfg.canId).value);
    }
  }

  /** The atomic events of every run are possible ones. */
  lemma {:induction false} TraceIsPossible(cfg: Config, acts: seq<Action>, s: State)
    requires Reaches(cfg, acts, s)
    ensures HandPossible(cfg, s.rx)
    ensures forall e | e in Trace(cfg, acts) :: Possible(cfg, e)
  {
    if acts != [] {
      var n := |acts| - 1;
      var prev := Run(cfg, INIT, acts[..n]).value;
      TraceIsPossible(cfg, acts[..n], prev);
      HandStep(cfg, prev, acts[n]);
    }
  }

  /** Serializability: for every interleaving there is a serial run of the two threads with the same
      queues, cache, publications and attempts, the drain in progress, if any, completed. */
  lemma Serializable(cfg: Config, acts: seq<Action>, s: State) returns (serial: seq<Action>, t: State)
    requires Reaches(cfg, acts, s)
    ensures Reaches(cfg, serial, t) && SerialRun(cfg, serial) && t.rx.Polling? && t.exec.Idle?
    ensures t.core == Settled(cfg, s)
    ensures s.core.states <= t.core.states && s.core.diagnostics <= t.core.diagnostics
    ensures s.exec.Idle? ==> t.core == s.core
  {
    TraceIsPossible(cfg, acts, s);
    SettledIsReplay(cfg, acts, s);
    SettledExtends(cfg, s);
    serial, t := AtomicRunIsSerial(cfg, Trace(cfg, acts));
  }
}
