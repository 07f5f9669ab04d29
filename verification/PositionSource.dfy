/** Which position every published state carries, characterised by the run's events alone. */
module PositionSource {
  import opened Options
  import opened Sequences
  import opened Protocol
  import opened Messages
  import opened Atomic
  import opened Steps
  import opened Reduction

  predicate ExtendedAt(t: seq<Event>, m: int) {
    0 <= m < |t| && t[m].Deliver? && t[m].item.ExtendedItem?
  }

  /** A set_feedback_config call that turns the extended position off. */
  predicate DisablingEvent(e: Event) {
    e.Call? && e.callback.FeedbackService? && !e.callback.extended
  }

  predicate DisablingAt(t: seq<Event>, k: int) {
    0 <= k < |t| && DisablingEvent(t[k])
  }

  predicate DrainAt(t: seq<Event>, e: int) {
    0 <= e < |t| && t[e] == Drain
  }

  /** Of the extended positions delivered before `bound`, event m delivered the one in force after
      the events t: it is the latest of them, and every disabling call since ran before any drain
      could absorb it. */
  ghost predicate Supplies(t: seq<Event>, m: int, bound: int) {
    && ExtendedAt(t, m) && m < bound
    && (forall j | m < j < bound :: !ExtendedAt(t, j))
    && (forall e, k | m < e < k :: !(DrainAt(t, e) && DisablingAt(t, k)))
  }

  /** The extended position in force after the events t. */
  ghost function Source(t: seq<Event>, bound: int): Option<real> {
    if exists m :: Supplies(t, m, bound)
    then var m :| Supplies(t, m, bound); Some(t[m].item.ext.positionDeg)
    else None
  }

  lemma SourceIs(t: seq<Event>, m: int, bound: int)
    requires Supplies(t, m, bound)
    ensures Source(t, bound) == Some(t[m].item.ext.positionDeg)
  {
  }

  /** The number of events up to and including the last drain. */
  function LastDrain(t: seq<Event>): (n: nat)
    ensures n <= |t|
    ensures forall e | n <= e < |t| :: !DrainAt(t, e)
    ensures n > 0 ==> DrainAt(t, n - 1)
  {
    if t == [] then 0
    else if t[|t| - 1] == Drain then |t|
    else
      var u := t[..|t| - 1];
      assert forall e | 0 <= e < |u| :: DrainAt(t, e) == DrainAt(u, e);
      LastDrain(u)
  }

  function StatusDelivered(e: Event): seq<StatusFrame> {
    if e.Deliver? && e.item.StatusItem? then [e.item.status] else []
  }

  function ExtDelivered(e: Event): seq<ExtendedPositionFrame> {
    if e.Deliver? && e.item.ExtendedItem? then [e.item.ext] else []
  }

  /** The statuses delivered by a stretch of events. */
  function StatusesOf(t: seq<Event>): seq<StatusFrame> {
    Gather(StatusDelivered, t)
  }

  function ExtsOf(t: seq<Event>): seq<ExtendedPositionFrame> {
    Gather(ExtDelivered, t)
  }

  /** What a run publishes, from its events: at each drain, one state for every status delivered since
      the drain before, all carrying the extended position in force at the drain. */
  ghost function Published(cfg: Config, t: seq<Event>): seq<MotorState> {
    if t == [] then []
    else
      var u := t[..|t| - 1];
      Published(cfg, u) +
      (if t[|t| - 1] == Drain then Reports(cfg, StatusesOf(u[LastDrain(u)..]), Source(u, |u|)) else [])
  }

  // ---- queues ----

  lemma {:induction false} Queues(cfg: Config, t: seq<Event>)
    requires AllAllowed(cfg, t)
    ensures Replay(cfg, t).statusQueue == StatusesOf(t[LastDrain(t)..])
    ensures Replay(cfg, t).extQueue == ExtsOf(t[LastDrain(t)..])
  {
    if t != [] {
      var u, e := t[..|t| - 1], t[|t| - 1];
      Queues(cfg, u);
      if e != Drain {
        var since := t[LastDrain(t)..];
        assert since[..|since| - 1] == u[LastDrain(u)..];
      }
    }
  }

  /** The index of the last extended position delivered by u, or -1. */
  lemma {:induction false} LastExt(u: seq<Event>) returns (m: int)
    ensures forall j | m < j :: !ExtendedAt(u, j)
    ensures m == -1 <==> ExtsOf(u) == []
    ensures m != -1 ==> ExtendedAt(u, m) && ExtsOf(u)[|ExtsOf(u)| - 1] == u[m].item.ext
  {
    m := -1;
    if u != [] {
      var n := |u| - 1;
      if ExtendedAt(u, n) {
        m := n;
      } else {
        m := LastExt(u[..n]);
        assert forall j | j < n :: ExtendedAt(u, j) == ExtendedAt(u[..n], j);
      }
    }
  }

  // ---- the cache ----

  /** A drain puts the latest delivered extended position in force, unless a disabling call came
      after an earlier drain had absorbed it. */
  lemma AbsorbSource(t: seq<Event>)
    ensures Absorb(Source(t, LastDrain(t)), ExtsOf(t[LastDrain(t)..])) == Source(t, |t|)
  {
    var n := LastDrain(t);
    var m := LastExtSince(t, n);
    if m == -1 {
      NothingSince(t, n);
    } else {
      SuppliesSinceDrain(t, m);
    }
  }

  /** The index of the last extended position delivered from event n on, or -1. */
  lemma LastExtSince(t: seq<Event>, n: nat) returns (m: int)
    requires n <= |t|
    ensures forall j | m < j && n <= j :: !ExtendedAt(t, j)
    ensures m == -1 <==> ExtsOf(t[n..]) == []
    ensures m != -1 ==> n <= m && ExtendedAt(t, m) && ExtsOf(t[n..])[|ExtsOf(t[n..])| - 1] == t[m].item.ext
  {
    var u := t[n..];
    m := LastExt(u);
    forall j | n + m < j && n <= j ensures !ExtendedAt(t, j) {
      assert ExtendedAt(t, j) == ExtendedAt(u, j - n);
    }
    if m != -1 {
      m := n + m;
    }
  }

  /** Nothing can have cleared an extended position delivered after the last drain. */
  lemma SuppliesSinceDrain(t: seq<Event>, m: nat)
    requires LastDrain(t) <= m && ExtendedAt(t, m) && forall j | m < j :: !ExtendedAt(t, j)
    ensures Source(t, |t|) == Some(t[m].item.ext.positionDeg)
  {
    var len := |t|;
    assert Supplies(t, m, len);
    SourceIs(t, m, len);
  }

  lemma NothingSince(t: seq<Event>, n: nat)
    requires n <= |t| && forall j | n <= j :: !ExtendedAt(t, j)
    ensures Source(t, n) == Source(t, |t|)
  {
    var len := |t|;
    forall m ensures Supplies(t, m, n) == Supplies(t, m, len) {
    }
    SourceSame(t, t, n, len);
  }

  /** The same supplier gives the same source. */
  lemma SourceSame(t: seq<Event>, u: seq<Event>, b: int, c: int)
    requires forall m :: Supplies(t, m, b) == Supplies(u, m, c)
    requires forall m | Supplies(u, m, c) && m < |t| :: t[m] == u[m]
    ensures Source(t, b) == Source(u, c)
  {
  }

  /** One more event leaves the earlier ones where they are. */
  lemma PrefixAgrees(u: seq<Event>, e: Event)
    ensures forall j | j < |u| :: ExtendedAt(u + [e], j) == ExtendedAt(u, j)
    ensures forall j | j < |u| :: DrainAt(u + [e], j) == DrainAt(u, j)
    ensures forall j | j < |u| :: DisablingAt(u + [e], j) == DisablingAt(u, j)
  {
  }

  /** Adding an event that is not a drain: a disabling call leaves nothing in force of what was
      drained, any other event changes nothing. */
  lemma SourceAfter(u: seq<Event>, e: Event)
    requires e != Drain
    ensures Source(u + [e], LastDrain(u)) == if DisablingEvent(e) then None else Source(u, LastDrain(u))
  {
    var t, n, d := u + [e], |u|, LastDrain(u);
    PrefixAgrees(u, e);
    if DisablingEvent(e) {
      assert DisablingAt(t, n);
      forall m ensures !Supplies(t, m, d) {
        assert d > 0 && m < d ==> DrainAt(t, d - 1);
      }
    } else {
      forall m ensures Supplies(t, m, d) == Supplies(u, m, d) {
      }
      SourceSame(t, u, d, d);
    }
  }

  lemma SourceAfterDrain(u: seq<Event>)
    ensures Source(u + [Drain], |u| + 1) == Source(u, |u|)
  {
    var t, n, b := u + [Drain], |u|, |u| + 1;
    PrefixAgrees(u, Drain);
    forall m ensures Supplies(t, m, b) == Supplies(u, m, n) {
    }
    SourceSame(t, u, b, n);
  }

  /** The cache always holds the extended position in force among those already drained. */
  lemma {:induction false} CacheIsSource(cfg: Config, t: seq<Event>)
    requires AllAllowed(cfg, t)
    ensures Replay(cfg, t).cache == Source(t, LastDrain(t))
  {
    if t == [] {
      assert forall m :: !Supplies(t, m, 0);
    } else {
      var u, e := t[..|t| - 1], t[|t| - 1];
      assert t == u + [e];
      CacheIsSource(cfg, u);
      if e == Drain {
        Queues(cfg, u);
        AbsorbSource(u);
        SourceAfterDrain(u);
      } else {
        SourceAfter(u, e);
      }
    }
  }

  lemma {:induction false} ReplayPublishes(cfg: Config, t: seq<Event>)
    requires AllAllowed(cfg, t)
    ensures Replay(cfg, t).states == Published(cfg, t)
  {
    if t != [] {
      var u, e := t[..|t| - 1], t[|t| - 1];
      ReplayPublishes(cfg, u);
      if e == Drain {
        Queues(cfg, u);
        CacheIsSource(cfg, u);
        AbsorbSource(u);
      }
    }
  }

  /** Exact position source over whole interleaved runs: with the executor idle, everything published
      is what the events determine, and so is the cache; mid-drain it is a prefix. */
  lemma PublishedExactly(cfg: Config, acts: seq<Action>, s: State)
    requires Reaches(cfg, acts, s)
    ensures s.core.states <= Published(cfg, Trace(cfg, acts))
    ensures s.exec.Idle? ==> s.core.states == Published(cfg, Trace(cfg, acts))
    ensures s.exec.Idle? ==> s.core.cache == Source(Trace(cfg, acts), LastDrain(Trace(cfg, acts)))
  {
    Reduction.Reduction(cfg, acts, s);
    ReplayPublishes(cfg, Trace(cfg, acts));
    CacheIsSource(cfg, Trace(cfg, acts));
  }
}
