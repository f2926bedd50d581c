// The tunnel's idle return, under a clock that never runs backwards.

module TunnelIdle {
  import opened Frames
  import opened StreamValidator
  import opened RawTunnel
  import opened TunnelSafety
  import opened TunnelCredit

  // The time by which everything in `steps` has happened.
  function Clock(start: nat, steps: seq<Step>): nat {
    if steps == [] then start
    else
      match steps[|steps| - 1]
      case LoopTick(at) => at
      case LoopFrame(_, at, _) => at
      case _ => Clock(start, steps[..|steps| - 1])
  }

  ghost predicate ClockOk(start: nat, steps: seq<Step>) {
    steps != [] ==>
      && ClockOk(start, steps[..|steps| - 1])
      && Clock(start, steps[..|steps| - 1]) <= Clock(start, steps)
  }

  // Step i brought a frame that was accepted.
  ghost predicate Accepts(t: Tunnel, steps: seq<Step>, i: nat)
    requires i < |steps|
  {
    var s := Run(t, steps[..i]);
    steps[i].LoopFrame? && s.loop.Selecting? && AcceptStep(s.validator, steps[i].frame, steps[i].at).0 == Accepted
  }

  ghost predicate AcceptedBy(t: Tunnel, steps: seq<Step>, i: nat, time: nat)
    requires i < |steps|
  {
    Accepts(t, steps, i) ==> steps[i].at <= time
  }

  // No frame was accepted after the validator's last activity.
  ghost predicate ActivityCovers(t: Tunnel, steps: seq<Step>) {
    forall i :: 0 <= i < |steps| ==> AcceptedBy(t, steps, i, Run(t, steps).validator.lastActivity)
  }

  // A step moves the activity clock only to the time of a frame it accepts.
  lemma StepActivity(t: Tunnel, step: Step)
    ensures var t' := Next(t, step);
            && t'.validator.idleTimeout == t.validator.idleTimeout
            && (step.LoopFrame? && t.loop.Selecting? && AcceptStep(t.validator, step.frame, step.at).0 == Accepted ==>
                  t'.validator.lastActivity == step.at)
            && (!(step.LoopFrame? && t.loop.Selecting? && AcceptStep(t.validator, step.frame, step.at).0 == Accepted) ==>
                  t'.validator == t.validator)
  {
    if step.LoopFrame? && Enabled(t, step) {
      FrameActivity(t, step.frame, step.at, step.write);
    }
  }

  lemma FrameActivity(t: Tunnel, f: Frame, at: nat, write: WriteResult)
    ensures OnFrame(t, f, at, write).validator == AcceptStep(t.validator, f, at).1
  {
  }

  lemma {:induction false} RunActivity(t: Tunnel, steps: seq<Step>, start: nat)
    requires ClockOk(start, steps) && t.validator.lastActivity <= start
    ensures var v := Run(t, steps).validator;
            && t.validator.lastActivity <= v.lastActivity <= Clock(start, steps)
            && v.idleTimeout == t.validator.idleTimeout
    ensures ActivityCovers(t, steps)
  {
    if steps == [] {
    } else {
      var n := |steps| - 1;
      var init := steps[..n];
      RunActivity(t, init, start);
      StepActivity(Run(t, init), steps[n]);
      var now := Run(t, steps).validator.lastActivity;
      forall i | 0 <= i < |steps|
        ensures AcceptedBy(t, steps, i, now)
      {
        if i < n {
          assert init[..i] == steps[..i];
          assert AcceptedBy(t, init, i, Run(t, init).validator.lastActivity);
        }
      }
    }
  }

  // A tunnel that returns as idle has accepted nothing for the whole timeout,
  // and was opened at least that long ago.
  lemma {:induction false} TunnelIdleMeansNothingAccepted(t: Tunnel, steps: seq<Step>, start: nat, step: Step, i: nat)
    requires ClockOk(start, steps) && t.validator.lastActivity <= start
    requires IdleTick(Run(t, steps), step) && Clock(start, steps) <= step.at
    ensures t.validator.lastActivity + t.validator.idleTimeout <= step.at
    ensures i < |steps| && Accepts(t, steps, i) ==> steps[i].at + t.validator.idleTimeout <= step.at
  {
    RunActivity(t, steps, start);
    assert i < |steps| ==> AcceptedBy(t, steps, i, Run(t, steps).validator.lastActivity);
  }

  // The time of the last frame accepted, in the tunnel or before it.
  function LastAccepted(t: Tunnel, steps: seq<Step>): nat {
    if steps == [] then t.validator.lastActivity
    else
      var init, last := steps[..|steps| - 1], steps[|steps| - 1];
      var s := Run(t, init);
      if last.LoopFrame? && s.loop.Selecting? && AcceptStep(s.validator, last.frame, last.at).0 == Accepted then last.at
      else LastAccepted(t, init)
  }

  lemma {:induction false} RunLast(t: Tunnel, steps: seq<Step>)
    ensures Run(t, steps).validator.lastActivity == LastAccepted(t, steps)
    ensures Run(t, steps).validator.idleTimeout == t.validator.idleTimeout
  {
    if steps == [] {
    } else {
      RunLast(t, steps[..|steps| - 1]);
      StepActivity(Run(t, steps[..|steps| - 1]), steps[|steps| - 1]);
    }
  }

  // Exactly when a tick ends the tunnel: when a timeout is set, no terminal
  // frame was accepted, and no frame has been for that long.
  lemma {:induction false} TickEnds(
    v: Validator, opts: Options, history: seq<Frame>, attempt: U32, host: string, port: U32, initial: U64,
    steps: seq<Step>, t: Tunnel, at: nat)
    requires Tracks(v, opts, history)
    requires t == Run(Opened(v, attempt, host, port, initial), steps) && t.loop.Selecting?
    ensures Next(t, LoopTick(at)).loop.Returned? <==>
              && 0 < opts.idleTimeout && !HasTerminal(history + t.log)
              && LastAccepted(Opened(v, attempt, host, port, initial), steps) + opts.idleTimeout <= at
  {
    OpenedUpload(v, opts, history, attempt, host, port, initial);
    RunUpload(Opened(v, attempt, host, port, initial), opts, history, steps);
    RunLast(Opened(v, attempt, host, port, initial), steps);
  }
}
