/** Fire once: what a node attempts to send over a whole run. */
module Transmit {
  import opened Options
  import opened Sequences
  import opened Wire
  import opened CanSocket
  import opened Messages
  import opened Steps

  function RequestOf(a: Action): seq<Callback> {
    if a.ExecCall? && Recognised(a.callback) then [a.callback] else []
  }

  /** The commands with a recognised mode and the service calls of a run, in callback order. */
  function Requests(acts: seq<Action>): seq<Callback> {
    Gather(RequestOf, acts)
  }

  /** One attempt per request, in order, addressed to this node's motor with the mode and length of
      the request; whether earlier sends succeeded, drains, and received frames play no part. */
  ghost predicate Answers(cfg: Config, attempts: seq<CanFrame>, requests: seq<Callback>) {
    && |attempts| == |requests|
    && forall i | 0 <= i < |requests| ::
         && Fits(cfg, requests[i]) && Some(attempts[i]) == FrameFor(cfg, requests[i])
         && attempts[i].id % 0x100 == cfg.canId
         && attempts[i].id / 0x100 == ModeByte(requests[i])
         && attempts[i].dlc == DataLengthOf(ModeByte(requests[i]))
  }

  lemma {:induction false} FireOnce(cfg: Config, acts: seq<Action>, s: State)
    requires Reaches(cfg, acts, s)
    ensures Answers(cfg, s.core.attempts, Requests(acts))
  {
    if acts != [] {
      var n := |acts| - 1;
      var prev := Run(cfg, INIT, acts[..n]).value;
      FireOnce(cfg, acts[..n], prev);
      if acts[n].ExecCall? {
        FrameHeader(cfg, acts[n].callback);
      }
      assert s.core.attempts[..|prev.core.attempts|] == prev.core.attempts;
    }
  }

  /** Every frame a callback builds crosses the socket framing unchanged: what a motor on the bus
      reads is what the callback packed. */
  lemma CommandArrives(cfg: Config, cb: Callback)
    requires Fits(cfg, cb) && FrameFor(cfg, cb).Some?
    ensures var frame := FrameFor(cfg, cb).value;
      frame.dlc <= 8 && FromRaw(ToRaw(frame), FRESH) == Some(frame)
  {
    FrameHeader(cfg, cb);
    FramingIdentity(FrameFor(cfg, cb).value);
  }
}
