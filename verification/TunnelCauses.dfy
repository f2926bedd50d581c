// Why a tunnel says what it says: every frame that ends it is traced to the
// event of the schedule that called for it, and every such event is answered.

module TunnelCauses {
  import opened Frames
  import opened StreamValidator
  import opened CreditGate
  import opened TunnelWire
  import opened RawTunnel
  import opened TunnelSafety
  import D = Download

  datatype Cause =
    | CleanEnd                    // a read reports the end of the connection
    | BrokenEnd                   // a read reports anything else
    | GivenUp                     // the context ends while the download lacks credit
    | ContextEnded
    | Cancelling(reason: string)  // an accepted Cancel
    | WriteBroke(reason: string)  // accepted data cannot be written

  const CONTEXT_ENDED := Error(ErrorInfo(TimeoutExceeded, "request_cancelled"))
  const RESET := Error(ErrorInfo(UpstreamReset, "upstream_reset_before_headers"))

  ghost predicate AcceptsFrame(t: Tunnel, step: Step) {
    step.LoopFrame? && AcceptStep(t.validator, step.frame, step.at).0 == Accepted
  }

  // The step, if it can be taken, is such an event.
  ghost predicate Causes(t: Tunnel, step: Step, c: Cause) {
    && Enabled(t, step)
    && match c
       case CleanEnd => step.DownRead? && (step.err == Some(Eof) || step.err == Some(ConnClosed))
       case BrokenEnd => step.DownRead? && (step.err == Some(ContextError) || step.err == Some(OtherError))
       case GivenUp => step.DownGiveUp? && t.down.Holding? && t.gate == Gate(0) && t.contextDone
       case ContextEnded => step.EndContext?
       case Cancelling(reason) => AcceptsFrame(t, step) && step.frame.payload == Cancel(reason)
       case WriteBroke(reason) =>
         AcceptsFrame(t, step) && step.frame.IsData() && step.write.WriteFailed? && step.write.reason == reason
  }

  ghost predicate HappensAt(t: Tunnel, steps: seq<Step>, j: nat, c: Cause)
    requires j < |steps|
  {
    Causes(Run(t, steps[..j]), steps[j], c)
  }

  ghost predicate Happened(t: Tunnel, steps: seq<Step>, c: Cause) {
    exists j :: 0 <= j < |steps| && HappensAt(t, steps, j, c)
  }

  lemma HappenedSnoc(t: Tunnel, steps: seq<Step>, c: Cause)
    requires steps != []
    ensures var n := |steps| - 1;
            Happened(t, steps, c) <==> Happened(t, steps[..n], c) || Causes(Run(t, steps[..n]), steps[n], c)
  {
    var n := |steps| - 1;
    forall j | 0 <= j < n
      ensures HappensAt(t, steps, j, c) <==> HappensAt(t, steps[..n], j, c)
    {
      assert steps[..n][..j] == steps[..j];
    }
    assert HappensAt(t, steps, n, c) <==> Causes(Run(t, steps[..n]), steps[n], c);
  }

  // -------------------------------------------------- what the download reports

  // The error of the one read that reported an error.
  function ReadReport(t: Tunnel, steps: seq<Step>): Option<ReadError> {
    if steps == [] then None
    else
      var init, last := steps[..|steps| - 1], steps[|steps| - 1];
      if last.DownRead? && last.err.Some? && Enabled(Run(t, init), last) then last.err else ReadReport(t, init)
  }

  // The report travels with the bytes in hand until the download is done.
  ghost predicate Carries(t: Tunnel, report: Option<ReadError>) {
    && (t.down.Finished? <==> t.done.Some?)
    && (t.gaveUp ==> t.down.Finished? && t.done == Some(ContextError))
    && (t.down.Reading? ==> report.None?)
    && (t.down.Holding? ==> t.down.err == report && t.down.remaining != [])
    && (t.down.Publishing? ==> t.down.err == report)
    && (t.down.Finished? && !t.gaveUp ==> report.Some? && t.done == report)
  }

  lemma LoopCarries(t: Tunnel, step: Step, report: Option<ReadError>)
    requires Carries(t, report) && Enabled(t, step) && (LoopMove(step) || step.LoopPublish?)
    ensures Carries(Next(t, step), report)
  {
    if LoopMove(step) {
      var payload := LoopEffect(t, step);
    }
  }

  lemma DownCarries(t: Tunnel, step: Step, report: Option<ReadError>)
    requires Carries(t, report) && Enabled(t, step) && !LoopMove(step) && !step.LoopPublish?
    ensures Carries(Next(t, step), if step.DownRead? && step.err.Some? then step.err else report)
  {
  }

  lemma {:induction false} RunCarries(t: Tunnel, steps: seq<Step>)
    requires Carries(t, None)
    ensures Carries(Run(t, steps), ReadReport(t, steps))
  {
    if steps == [] {
    } else {
      var init, last := steps[..|steps| - 1], steps[|steps| - 1];
      RunCarries(t, init);
      if Enabled(Run(t, init), last) {
        if LoopMove(last) || last.LoopPublish? {
          LoopCarries(Run(t, init), last, ReadReport(t, init));
        } else {
          DownCarries(Run(t, init), last, ReadReport(t, init));
        }
      }
    }
  }

  // The download has given up exactly if that happened, and the context has
  // ended exactly if that did.
  lemma {:induction false} RunFlags(t: Tunnel, steps: seq<Step>)
    requires !t.gaveUp && !t.contextDone
    ensures Run(t, steps).gaveUp <==> Happened(t, steps, GivenUp)
    ensures Run(t, steps).contextDone <==> Happened(t, steps, ContextEnded)
  {
    if steps == [] {
    } else {
      var init, last := steps[..|steps| - 1], steps[|steps| - 1];
      RunFlags(t, init);
      HappenedSnoc(t, steps, GivenUp);
      HappenedSnoc(t, steps, ContextEnded);
      StepGivenUp(Run(t, init), last);
      StepContext(Run(t, init), last);
    }
  }

  lemma StepGivenUp(t: Tunnel, step: Step)
    ensures Next(t, step).gaveUp <==> t.gaveUp || (Enabled(t, step) && step.DownGiveUp?)
  {
    if Enabled(t, step) && LoopMove(step) {
      var payload := LoopEffect(t, step);
    }
  }

  lemma StepContext(t: Tunnel, step: Step)
    ensures Next(t, step).contextDone <==> t.contextDone || step.EndContext?
  {
  }

  lemma {:induction false} ReportHappened(t: Tunnel, steps: seq<Step>)
    ensures var report := ReadReport(t, steps);
            && (report == Some(Eof) || report == Some(ConnClosed) ==> Happened(t, steps, CleanEnd))
            && (report == Some(ContextError) || report == Some(OtherError) ==> Happened(t, steps, BrokenEnd))
  {
    if steps == [] {
    } else {
      ReportHappened(t, steps[..|steps| - 1]);
      HappenedSnoc(t, steps, CleanEnd);
      HappenedSnoc(t, steps, BrokenEnd);
    }
  }

  // ------------------------------------------------ every event has its answer

  // The run loop numbers one frame with this payload and will publish it next.
  ghost predicate Says(t: Tunnel, t': Tunnel, payload: Payload) {
    && |t'.line.numbered| == |t.line.numbered| + 1 && t.line.numbered <= t'.line.numbered
    && t'.line.numbered[|t.line.numbered|].Frame?
    && t'.line.numbered[|t.line.numbered|].payload == payload
    && t'.loop.Announcing?
  }

  ghost predicate SaysNothing(t: Tunnel, t': Tunnel) {
    t'.line == t.line && !t'.loop.Announcing?
  }

  lemma FrameAnswered(t: Tunnel, step: Step)
    requires step.LoopFrame? && t.loop.Selecting?
    ensures var t', f := Next(t, step), step.frame;
            if !AcceptsFrame(t, step) then t' == t
            else if f.IsData() then
              if step.write.Wrote? then
                Says(t, t', Credit(Wrap64(|f.payload.data|), 0)) && t'.upstream == t.upstream + f.payload.data
              else
                && Says(t, t', Error(ErrorInfo(UpstreamReset, step.write.reason)))
                && t'.upstream == t.upstream + f.payload.data[..Min(step.write.written, |f.payload.data|)]
            else if f.Frame? && f.payload.Cancel? then Says(t, t', Cancelled(f.payload.cancelReason))
            else SaysNothing(t, t')
  {
  }

  // The end of the context is answered with a timeout error, once the run loop
  // attends to it.
  lemma ContextAnswered(v: Validator, attempt: U32, host: string, port: U32, initial: U64, steps: seq<Step>, t: Tunnel)
    requires t == Run(Opened(v, attempt, host, port, initial), steps) && t.loop.Selecting?
    ensures Enabled(t, LoopContext) <==> Happened(Opened(v, attempt, host, port, initial), steps, ContextEnded)
    ensures Enabled(t, LoopContext) ==> Says(t, Next(t, LoopContext), CONTEXT_ENDED)
  {
    RunFlags(Opened(v, attempt, host, port, initial), steps);
  }

  lemma DoneSays(t: Tunnel)
    requires Enabled(t, LoopDone)
    ensures Says(t, Next(t, LoopDone),
                 if t.done == Some(Eof) || t.done == Some(ConnClosed) then End(true) else RESET)
  {
  }

  // The end of the download is answered with End if the connection was read to
  // its end, and with a reset error if a read failed or the download gave up.
  lemma {:induction false} DownloadAnswered(
    v: Validator, attempt: U32, host: string, port: U32, initial: U64, steps: seq<Step>, t: Tunnel)
    requires t == Run(Opened(v, attempt, host, port, initial), steps) && Enabled(t, LoopDone)
    ensures var t0 := Opened(v, attempt, host, port, initial);
            var report := ReadReport(t0, steps);
            Says(t, Next(t, LoopDone),
                 if !Happened(t0, steps, GivenUp) && (report == Some(Eof) || report == Some(ConnClosed))
                 then End(true) else RESET)
  {
    RunCarries(Opened(v, attempt, host, port, initial), steps);
    RunFlags(Opened(v, attempt, host, port, initial), steps);
    DoneSays(t);
  }

  // It is offered to the run loop as soon as a read has reported an error and
  // every byte read has been published, or the download has given up.
  lemma {:induction false} DownloadReported(
    v: Validator, attempt: U32, host: string, port: U32, initial: U64, steps: seq<Step>, t: Tunnel)
    requires t == Run(Opened(v, attempt, host, port, initial), steps) && t.loop.Selecting?
    ensures var t0 := Opened(v, attempt, host, port, initial);
            Enabled(t, LoopDone) <==>
              || Happened(t0, steps, GivenUp)
              || (ReadReport(t0, steps).Some? && t.line.downFrame.None? && DataBytes(t.line.numbered) == t.bytesRead)
  {
    OpenedOk(v, attempt, host, port, initial);
    RunOk(Opened(v, attempt, host, port, initial), steps);
    RunCarries(Opened(v, attempt, host, port, initial), steps);
    RunFlags(Opened(v, attempt, host, port, initial), steps);
    if t.down.Holding? {
      NotAll(DataBytes(t.line.numbered), t.down.remaining);
    }
    if t.down.Finished? && !t.gaveUp {
      NothingMore(DataBytes(t.line.numbered));
    }
  }

  lemma NotAll(a: seq<Byte>, b: seq<Byte>)
    requires b != []
    ensures a + b != a
  {
    assert |a + b| > |a|;
  }

  // ------------------------------------------------ every ending has its cause

  ghost predicate Caused(t: Tunnel, steps: seq<Step>, payload: Payload) {
    match payload
    case End(success) => success && Happened(t, steps, CleanEnd)
    case Cancelled(reason) => Happened(t, steps, Cancelling(reason))
    case Error(info) =>
      || (payload == CONTEXT_ENDED && Happened(t, steps, ContextEnded))
      || (payload == RESET && (Happened(t, steps, BrokenEnd) || Happened(t, steps, GivenUp)))
      || (info.code == UpstreamReset && Happened(t, steps, WriteBroke(info.fact)))
    case _ => true
  }

  lemma CausedSnoc(t: Tunnel, steps: seq<Step>, payload: Payload)
    requires steps != [] && Caused(t, steps[..|steps| - 1], payload)
    ensures Caused(t, steps, payload)
  {
    match payload
    case End(_) => HappenedSnoc(t, steps, CleanEnd);
    case Cancelled(reason) => HappenedSnoc(t, steps, Cancelling(reason));
    case Error(info) =>
      HappenedSnoc(t, steps, ContextEnded);
      HappenedSnoc(t, steps, BrokenEnd);
      HappenedSnoc(t, steps, GivenUp);
      HappenedSnoc(t, steps, WriteBroke(info.fact));
    case _ =>
  }

  ghost predicate CausedFrame(t: Tunnel, steps: seq<Step>, f: Frame) {
    f.Frame? && Caused(t, steps, f.payload)
  }

  ghost predicate AllCaused(t: Tunnel, steps: seq<Step>, frames: seq<Frame>) {
    forall i :: 0 <= i < |frames| ==> CausedFrame(t, steps, frames[i])
  }

  // What a step numbers, if anything, is caused by then.
  ghost predicate Adds(before: seq<Frame>, after: seq<Frame>, payload: Payload) {
    || after == before
    || (|after| == |before| + 1 && before <= after && after[|before|].Frame? && after[|before|].payload == payload)
  }

  lemma AllCausedSnoc(t: Tunnel, steps: seq<Step>, frames: seq<Frame>)
    requires steps != [] && AllCaused(t, steps[..|steps| - 1], frames)
    ensures AllCaused(t, steps, frames)
  {
    forall i | 0 <= i < |frames|
      ensures CausedFrame(t, steps, frames[i])
    {
      assert CausedFrame(t, steps[..|steps| - 1], frames[i]);
      CausedSnoc(t, steps, frames[i].payload);
    }
  }

  lemma AddsCaused(t: Tunnel, steps: seq<Step>, before: seq<Frame>, after: seq<Frame>, payload: Payload)
    requires AllCaused(t, steps, before) && Adds(before, after, payload) && Caused(t, steps, payload)
    ensures AllCaused(t, steps, after)
  {
    forall i | 0 <= i < |after|
      ensures CausedFrame(t, steps, after[i])
    {
      assert i < |before| ==> CausedFrame(t, steps, before[i]) && after[i] == before[i];
    }
  }

  lemma DoneCaused(t: Tunnel, steps: seq<Step>) returns (payload: Payload)
    requires steps != [] && steps[|steps| - 1].LoopDone?
    requires Carries(t, None) && !t.gaveUp && !t.contextDone
    ensures Adds(Run(t, steps[..|steps| - 1]).line.numbered, Run(t, steps).line.numbered, payload) && Caused(t, steps, payload)
  {
    var init := steps[..|steps| - 1];
    payload := NoPayload;
    if Enabled(Run(t, init), LoopDone) {
      RunCarries(t, init);
      RunFlags(t, init);
      ReportHappened(t, init);
      DoneSays(Run(t, init));
      payload := if Run(t, init).done == Some(Eof) || Run(t, init).done == Some(ConnClosed) then End(true) else RESET;
      CausedSnoc(t, steps, payload);
    }
  }

  lemma ContextCaused(t: Tunnel, steps: seq<Step>) returns (payload: Payload)
    requires steps != [] && steps[|steps| - 1].LoopContext? && !t.gaveUp && !t.contextDone
    ensures Adds(Run(t, steps[..|steps| - 1]).line.numbered, Run(t, steps).line.numbered, payload) && Caused(t, steps, payload)
  {
    var init := steps[..|steps| - 1];
    payload := NoPayload;
    if Enabled(Run(t, init), LoopContext) {
      RunFlags(t, init);
      payload := CONTEXT_ENDED;
      CausedSnoc(t, steps, payload);
    }
  }

  lemma FrameCaused(t: Tunnel, steps: seq<Step>) returns (payload: Payload)
    requires steps != [] && steps[|steps| - 1].LoopFrame?
    ensures Adds(Run(t, steps[..|steps| - 1]).line.numbered, Run(t, steps).line.numbered, payload) && Caused(t, steps, payload)
  {
    var before, last := Run(t, steps[..|steps| - 1]), steps[|steps| - 1];
    payload := NoPayload;
    if Enabled(before, last) {
      FrameAnswered(before, last);
      if AcceptsFrame(before, last) {
        if last.frame.IsData() && last.write.Wrote? {
          payload := Credit(Wrap64(|last.frame.payload.data|), 0);
        } else if last.frame.IsData() {
          payload := Error(ErrorInfo(UpstreamReset, last.write.reason));
          HappenedSnoc(t, steps, WriteBroke(last.write.reason));
        } else if last.frame.payload.Cancel? {
          payload := Cancelled(last.frame.payload.cancelReason);
          HappenedSnoc(t, steps, Cancelling(last.frame.payload.cancelReason));
        }
      }
    }
  }

  lemma OtherAdds(t: Tunnel, step: Step) returns (payload: Payload)
    requires !step.LoopDone? && !step.LoopContext? && !step.LoopFrame?
    ensures Adds(t.line.numbered, Next(t, step).line.numbered, payload) && (payload.NoPayload? || payload.Data?)
  {
    payload := NoPayload;
    if Enabled(t, step) && step.DownNumber? {
      payload := Data(t.offset, t.down.remaining[..TakenCount(t)]);
    }
  }

  lemma StepCaused(t: Tunnel, steps: seq<Step>) returns (payload: Payload)
    requires Carries(t, None) && !t.gaveUp && !t.contextDone && steps != []
    ensures Adds(Run(t, steps[..|steps| - 1]).line.numbered, Run(t, steps).line.numbered, payload)
    ensures Caused(t, steps, payload)
  {
    match steps[|steps| - 1] {
      case LoopDone => payload := DoneCaused(t, steps);
      case LoopContext => payload := ContextCaused(t, steps);
      case LoopFrame(_, _, _) => payload := FrameCaused(t, steps);
      case _ => payload := OtherAdds(Run(t, steps[..|steps| - 1]), steps[|steps| - 1]);
    }
  }

  lemma {:induction false} RunCaused(t: Tunnel, steps: seq<Step>)
    requires Carries(t, None) && !t.gaveUp && !t.contextDone && AllCaused(t, [], t.line.numbered)
    ensures AllCaused(t, steps, Run(t, steps).line.numbered)
  {
    if steps == [] {
    } else {
      var init := steps[..|steps| - 1];
      RunCaused(t, init);
      AllCausedSnoc(t, steps, Run(t, init).line.numbered);
      var payload := StepCaused(t, steps);
      AddsCaused(t, steps, Run(t, init).line.numbered, Run(t, steps).line.numbered, payload);
    }
  }

  lemma OpenedCaused(v: Validator, attempt: U32, host: string, port: U32, initial: U64)
    ensures var t := Opened(v, attempt, host, port, initial);
            && Carries(t, None) && !t.gaveUp && !t.contextDone && AllCaused(t, [], t.line.numbered)
            && |t.line.numbered| == 2
            && t.line.numbered[0].payload == OutboundStart(host, port)
            && t.line.numbered[1].payload == ResponseStart(200)
  {
  }

  // No ending without its cause. In every schedule: an End means that a read
  // reported the end of the connection, a Cancelled that a Cancel with that
  // reason was accepted, and an error that the context ended, that a write
  // failed with that reason, that a read failed, or that the download gave up.
  lemma {:induction false} EndingsCaused(
    v: Validator, attempt: U32, host: string, port: U32, initial: U64, steps: seq<Step>, t: Tunnel, i: nat)
    requires t == Run(Opened(v, attempt, host, port, initial), steps) && i < |t.line.numbered|
    ensures t.line.numbered[i].Frame?
    ensures Caused(Opened(v, attempt, host, port, initial), steps, t.line.numbered[i].payload)
  {
    OpenedCaused(v, attempt, host, port, initial);
    RunCaused(Opened(v, attempt, host, port, initial), steps);
    assert CausedFrame(Opened(v, attempt, host, port, initial), steps, t.line.numbered[i]);
  }

  lemma NextExtends(t: Tunnel, step: Step)
    ensures t.line.numbered <= Next(t, step).line.numbered
  {
    if Enabled(t, step) {
      if LoopMove(step) {
        var payload := LoopEffect(t, step);
      } else if !step.LoopPublish? {
        DownEffect(t, step);
      }
    }
  }

  lemma {:induction false} RunExtends(t: Tunnel, steps: seq<Step>)
    ensures t.line.numbered <= Run(t, steps).line.numbered
  {
    if steps == [] {
    } else {
      RunExtends(t, steps[..|steps| - 1]);
      NextExtends(Run(t, steps[..|steps| - 1]), steps[|steps| - 1]);
    }
  }

  // Every tunnel opens with its target and status 200, numbered 1 and 2.
  lemma {:induction false} OpeningFrames(
    v: Validator, attempt: U32, host: string, port: U32, initial: U64, steps: seq<Step>)
    ensures var l := Run(Opened(v, attempt, host, port, initial), steps).line;
            && |l.numbered| >= 2
            && l.numbered[0] == Frame(1, attempt, OutboundStart(host, port))
            && l.numbered[1] == Frame(2, attempt, ResponseStart(200))
  {
    RunExtends(Opened(v, attempt, host, port, initial), steps);
  }
}
