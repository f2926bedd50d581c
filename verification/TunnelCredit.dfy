// The tunnel's two credit accounts, in every interleaving: upload bytes written
// and announced, and download bytes published against credit granted.

module TunnelCredit {
  import opened Frames
  import opened StreamValidator
  import opened CreditGate
  import opened TunnelWire
  import opened RawTunnel
  import opened TunnelSafety
  import D = Download

  // ------------------------------------------------------------------- upload

  // The upload credit that frames announce in all.
  function Announced(frames: seq<Frame>): nat {
    if frames == [] then 0
    else
      var last := frames[|frames| - 1];
      Announced(frames[..|frames| - 1]) + (if last.Frame? && last.payload.Credit? then last.payload.uploadBytes else 0)
  }

  lemma AnnouncedSnoc(frames: seq<Frame>, f: Frame)
    ensures Announced(frames + [f])
            == Announced(frames) + (if f.Frame? && f.payload.Credit? then f.payload.uploadBytes else 0)
  {
    assert (frames + [f])[..|frames|] == frames;
  }

  // While every write succeeds, what was written upstream is the data accepted
  // since the tunnel opened, and exactly that much upload credit was announced.
  ghost predicate UploadOk(t: Tunnel, opts: Options, history: seq<Frame>) {
    && Tracks(t.validator, opts, history + t.log)
    && (!t.writeFailed ==> t.upstream == DataBytes(t.log) && Announced(t.line.numbered) == |t.upstream|)
    && (t.writeFailed ==> t.upstream <= DataBytes(t.log) && Ending(t))
  }

  ghost predicate UploadQuiet(t: Tunnel, t': Tunnel) {
    && t'.validator == t.validator && t'.log == t.log
    && t'.upstream == t.upstream && t'.writeFailed == t.writeFailed
    && Announced(t'.line.numbered) == Announced(t.line.numbered)
    && (Ending(t) ==> Ending(t'))
  }

  lemma StepUploadQuiet(t: Tunnel, step: Step)
    requires !step.LoopFrame?
    ensures UploadQuiet(t, Next(t, step))
  {
    StepUploadShape(t, step);
    StepAnnounced(t, step);
    if Ending(t) {
      StepEnding(t, step);
    }
  }

  lemma StepUploadShape(t: Tunnel, step: Step)
    requires !step.LoopFrame?
    ensures var t' := Next(t, step);
            && t'.validator == t.validator && t'.log == t.log
            && t'.upstream == t.upstream && t'.writeFailed == t.writeFailed
  {
    if Enabled(t, step) {
      match step
      case DownNumber => NumberUpload(t);
      case DownPublish => EmitUpload(t);
      case _ =>
    }
  }

  lemma StepEnding(t: Tunnel, step: Step)
    requires Ending(t)
    ensures Ending(Next(t, step))
  {
    if Enabled(t, step) {
      if LoopMove(step) {
        var payload := LoopEffect(t, step);
      } else if !step.LoopPublish? {
        DownEffect(t, step);
      }
    }
  }

  lemma NumberUpload(t: Tunnel)
    requires Enabled(t, DownNumber)
    ensures var t' := NumberChunk(t);
            && t'.validator == t.validator && t'.log == t.log && t'.loop == t.loop
            && t'.upstream == t.upstream && t'.writeFailed == t.writeFailed
  {
  }

  lemma EmitUpload(t: Tunnel)
    requires Enabled(t, DownPublish)
    ensures var t' := EmitChunk(t);
            && t'.validator == t.validator && t'.log == t.log && t'.loop == t.loop
            && t'.upstream == t.upstream && t'.writeFailed == t.writeFailed
            && t'.gate == t.gate && t'.queue == t.queue
  {
  }

  lemma StepAnnounced(t: Tunnel, step: Step)
    requires !step.LoopFrame?
    ensures Announced(Next(t, step).line.numbered) == Announced(t.line.numbered)
  {
    if Enabled(t, step) {
      match step
      case LoopDone => AnnouncedAssign(t.line, RunLoop, DonePayload(t.done.value));
      case LoopContext => AnnouncedAssign(t.line, RunLoop, Error(ErrorInfo(TimeoutExceeded, "request_cancelled")));
      case DownNumber => AnnouncedAssign(t.line, TunnelWire.Download, Data(t.offset, t.down.remaining[..TakenCount(t)]));
      case _ =>
    }
  }

  lemma AnnouncedAssign(l: Line, o: Origin, payload: Payload)
    ensures Announced(Assign(l, o, payload).numbered)
            == Announced(l.numbered) + (if payload.Credit? then payload.uploadBytes else 0)
  {
    AnnouncedSnoc(l.numbered, Frame(Wrap64(l.seqNo + 1), l.attempt, payload));
  }

  lemma DataUpload(t: Tunnel, opts: Options, history: seq<Frame>, f: Frame, write: WriteResult)
    requires t.loop.Selecting? && !t.writeFailed && f.IsData()
    requires t.log != [] && t.log[|t.log| - 1] == f && |f.payload.data| <= MAX_U64
    requires Tracks(t.validator, opts, history + t.log)
    requires t.upstream == DataBytes(t.log[..|t.log| - 1]) && Announced(t.line.numbered) == |t.upstream|
    ensures UploadOk(OnData(t, f.payload.data, write), opts, history)
  {
    match write
    case Wrote =>
      AnnouncedAssign(t.line, RunLoop, Credit(Wrap64(|f.payload.data|), 0));
    case WriteFailed(written, reason) =>
  }

  // An accepted frame other than data leaves the upload account alone.
  lemma OtherUpload(t: Tunnel, f: Frame, write: WriteResult)
    requires !f.IsData()
    ensures var t' := OnAccepted(t, f, write);
            && t'.validator == t.validator && t'.log == t.log
            && t'.upstream == t.upstream && t'.writeFailed == t.writeFailed
            && Announced(t'.line.numbered) == Announced(t.line.numbered)
  {
    if D.IsCancel(f) {
      AnnouncedAssign(t.line, RunLoop, Cancelled(f.payload.cancelReason));
    }
  }

  // The log grows by an accepted frame and the validator keeps track of it.
  lemma LogGrows(t: Tunnel, opts: Options, history: seq<Frame>, f: Frame, at: nat)
    requires Tracks(t.validator, opts, history + t.log)
    requires AcceptStep(t.validator, f, at).0 == Accepted
    ensures Tracks(AcceptStep(t.validator, f, at).1, opts, history + (t.log + [f]))
    ensures |f.Bytes()| <= MAX_U64
    ensures DataBytes(t.log + [f]) == DataBytes(t.log) + f.Bytes()
    ensures (t.log + [f])[..|t.log|] == t.log
  {
    AcceptIffExtends(t.validator, opts, history + t.log, f, at);
    assert (history + t.log) + [f] == history + (t.log + [f]);
    DataBytesSnoc(t.log, f);
  }

  lemma FrameUpload(t: Tunnel, opts: Options, history: seq<Frame>, f: Frame, at: nat, write: WriteResult)
    requires UploadOk(t, opts, history) && t.loop.Selecting?
    ensures UploadOk(OnFrame(t, f, at, write), opts, history)
  {
    if AcceptStep(t.validator, f, at).0 == Accepted {
      LogGrows(t, opts, history, f, at);
      var t' := t.(validator := AcceptStep(t.validator, f, at).1, log := t.log + [f]);
      if f.IsData() {
        DataUpload(t', opts, history, f, write);
      } else {
        OtherUpload(t', f, write);
        assert DataBytes(t.log) + [] == DataBytes(t.log);
      }
    }
  }

  lemma {:induction false} RunUpload(t: Tunnel, opts: Options, history: seq<Frame>, steps: seq<Step>)
    requires UploadOk(t, opts, history)
    ensures UploadOk(Run(t, steps), opts, history)
  {
    if steps == [] {
    } else {
      var last := steps[|steps| - 1];
      var t' := Run(t, steps[..|steps| - 1]);
      RunUpload(t, opts, history, steps[..|steps| - 1]);
      if last.LoopFrame? && Enabled(t', last) {
        FrameUpload(t', opts, history, last.frame, last.at, last.write);
      } else if !last.LoopFrame? {
        StepUploadQuiet(t', last);
      }
    }
  }

  lemma OpenedUpload(v: Validator, opts: Options, history: seq<Frame>, attempt: U32, host: string, port: U32, initial: U64)
    requires Tracks(v, opts, history)
    ensures UploadOk(Opened(v, attempt, host, port, initial), opts, history)
  {
    assert history + [] == history;
    var l1 := PublishNow(NewLine(attempt), OutboundStart(host, port));
    AnnouncedAssign(NewLine(attempt), RunLoop, OutboundStart(host, port));
    AnnouncedAssign(l1, RunLoop, ResponseStart(ESTABLISHED));
  }

  // While every write succeeds: the bytes written upstream since the tunnel
  // opened are the data of the frames accepted since then, as many as the
  // validator's offset has gained, and as many as the upload credit announced.
  // The validator's own credit is never topped up, so all of the upload, body
  // and tunnel together, stays within the initial credit.
  ghost predicate UploadSettled(t: Tunnel, opts: Options, before: nat) {
    && t.validator.offset == before + |DataBytes(t.log)|
    && t.validator.offset + t.validator.credit == opts.initialCredit
    && t.upstream <= DataBytes(t.log)
    && (!t.writeFailed ==>
          && t.upstream == DataBytes(t.log)
          && Announced(t.line.numbered) == |t.upstream| == t.validator.offset - before)
  }

  // In every interleaving, from any state the body phase can leave.
  lemma {:induction false} UploadAccounted(v: Validator, opts: Options, history: seq<Frame>,
                                           attempt: U32, host: string, port: U32, initial: U64, steps: seq<Step>)
    requires Tracks(v, opts, history)
    ensures UploadSettled(Run(Opened(v, attempt, host, port, initial), steps), opts, v.offset)
  {
    var t0 := Opened(v, attempt, host, port, initial);
    OpenedUpload(v, opts, history, attempt, host, port, initial);
    RunUpload(t0, opts, history, steps);
    DataBytesConcat(history, Run(t0, steps).log);
  }

  // ----------------------------------------------------------------- download

  function InHandOf(t: Tunnel): nat {
    if t.loop.Granting? then t.loop.amount else 0
  }

  // Initial credit and everything granted is either numbered as data, still
  // credit, in the queue, or in the run loop's hand.
  ghost predicate CreditOk(t: Tunnel, initial: U64) {
    && (t.gate.Gate? <==> initial != 0)
    && (t.gate.Gate? ==>
          initial + Sum(D.GrantsOf(t.log)) == |DataBytes(t.line.numbered)| + t.gate.credit + Sum(t.queue) + InHandOf(t))
  }

  lemma DataAssign(l: Line, o: Origin, payload: Payload)
    ensures |DataBytes(Assign(l, o, payload).numbered)|
            == |DataBytes(l.numbered)| + (if payload.Data? then |payload.data| else 0)
  {
    DataBytesSnoc(l.numbered, Frame(Wrap64(l.seqNo + 1), l.attempt, payload));
  }

  // The credit account after a step that touches neither the gate nor the queue
  // nor the log.
  ghost predicate CreditQuiet(t: Tunnel, t': Tunnel) {
    && t'.gate == t.gate && t'.queue == t.queue && t'.log == t.log
    && |DataBytes(t'.line.numbered)| == |DataBytes(t.line.numbered)|
    && InHandOf(t') == InHandOf(t)
  }

  predicate QuietStep(step: Step) {
    !step.LoopFrame? && !step.LoopGrant? && !step.DownReceive? && !step.DownNumber?
  }

  lemma QuietStepCredit(t: Tunnel, step: Step)
    requires Enabled(t, step) && QuietStep(step)
    ensures CreditQuiet(t, Next(t, step))
  {
    QuietStepShape(t, step);
    if LoopMove(step) {
      QuietStepData(t, step);
    } else {
      QuietDownData(t, step);
    }
  }

  lemma QuietStepShape(t: Tunnel, step: Step)
    requires Enabled(t, step) && QuietStep(step)
    ensures var t' := Next(t, step);
            t'.gate == t.gate && t'.queue == t.queue && t'.log == t.log && InHandOf(t') == InHandOf(t)
  {
    if step.DownPublish? {
      EmitUpload(t);
    }
  }

  lemma QuietStepData(t: Tunnel, step: Step)
    requires Enabled(t, step) && LoopMove(step)
    ensures |DataBytes(Next(t, step).line.numbered)| == |DataBytes(t.line.numbered)|
  {
    var payload := LoopEffect(t, step);
    DataAssign(t.line, RunLoop, payload);
  }

  lemma QuietDownData(t: Tunnel, step: Step)
    requires Enabled(t, step) && QuietStep(step) && !LoopMove(step)
    ensures Next(t, step).line.numbered == t.line.numbered
  {
  }

  // What an arriving frame does to the account: an accepted one puts its grant,
  // if it has one, into the run loop's hand.
  lemma AcceptedCreditShape(t: Tunnel, f: Frame, write: WriteResult)
    requires t.loop.Selecting?
    ensures var t' := OnAccepted(t, f, write);
            && t'.gate == t.gate && t'.queue == t.queue && t'.log == t.log
            && (t.gate.Gate? ==> InHandOf(t') == D.GrantAmount(f))
  {
  }

  lemma FrameCreditShape(t: Tunnel, f: Frame, at: nat, write: WriteResult)
    requires t.loop.Selecting? && AcceptStep(t.validator, f, at).0 == Accepted
    ensures var t' := OnFrame(t, f, at, write);
            && t'.gate == t.gate && t'.queue == t.queue && t'.log == t.log + [f]
            && (t.gate.Gate? ==> InHandOf(t') == D.GrantAmount(f))
  {
    AcceptedCreditShape(t.(validator := AcceptStep(t.validator, f, at).1, log := t.log + [f]), f, write);
  }

  lemma FrameData(t: Tunnel, f: Frame, at: nat, write: WriteResult)
    requires t.loop.Selecting?
    ensures |DataBytes(OnFrame(t, f, at, write).line.numbered)| == |DataBytes(t.line.numbered)|
  {
    var payload := FrameEffect(t, f, at, write);
    DataAssign(t.line, RunLoop, payload);
  }

  lemma FrameCredit(t: Tunnel, initial: U64, f: Frame, at: nat, write: WriteResult)
    requires CreditOk(t, initial) && t.loop.Selecting?
    ensures CreditOk(OnFrame(t, f, at, write), initial)
  {
    if AcceptStep(t.validator, f, at).0 == Accepted {
      FrameCreditShape(t, f, at, write);
      FrameData(t, f, at, write);
      D.GrantedSnoc(t.log, f);
    }
  }

  lemma NextCredit(t: Tunnel, initial: U64, step: Step)
    requires CreditOk(t, initial)
    ensures CreditOk(Next(t, step), initial)
  {
    if Enabled(t, step) {
      if QuietStep(step) {
        QuietStepCredit(t, step);
      } else if step.LoopFrame? {
        FrameCredit(t, initial, step.frame, step.at, step.write);
      } else {
        TransferCredit(t, initial, step);
      }
    }
  }

  // Moving a grant into the queue, out of it, or credit out into a chunk.
  lemma TransferCredit(t: Tunnel, initial: U64, step: Step)
    requires CreditOk(t, initial) && Enabled(t, step)
    requires step.LoopGrant? || step.DownReceive? || step.DownNumber?
    ensures CreditOk(Next(t, step), initial)
  {
    match step
    case LoopGrant => SumSnoc(t.queue, t.loop.amount);
    case DownReceive => SumCons(t.queue);
    case DownNumber => ChunkCredit(t);
  }

  lemma ChunkCredit(t: Tunnel)
    requires Enabled(t, DownNumber)
    ensures var t' := NumberChunk(t);
            && |DataBytes(t'.line.numbered)| == |DataBytes(t.line.numbered)| + TakenCount(t)
            && (t.gate.Gate? ==> t'.gate.Gate? && t'.gate.credit == t.gate.credit - TakenCount(t))
            && (t.gate.NilGate? ==> t'.gate.NilGate?)
  {
    DataAssign(t.line, TunnelWire.Download, Data(t.offset, t.down.remaining[..TakenCount(t)]));
  }

  lemma {:induction false} RunCredit(t: Tunnel, initial: U64, steps: seq<Step>)
    requires CreditOk(t, initial)
    ensures CreditOk(Run(t, steps), initial)
  {
    if steps == [] {
    } else {
      RunCredit(t, initial, steps[..|steps| - 1]);
      NextCredit(Run(t, steps[..|steps| - 1]), initial, steps[|steps| - 1]);
    }
  }

  // The data on the wire is paid for by the initial credit and the grants of the
  // frames accepted since the tunnel opened.
  ghost predicate DownloadSettled(t: Tunnel, opts: Options, history: seq<Frame>, initial: U64) {
    && (forall k :: 0 <= k < |t.line.wire| ==> t.line.wire[k] < |t.line.numbered|)
    && |WireData(t.line, t.line.wire)| <= initial + Sum(D.GrantsOf(t.log))
    && ValidStream(opts, history + t.log)
  }

  // Download credit is counted exactly once: the data on the wire is covered by
  // the initial credit plus the grants of the frames accepted since the tunnel
  // opened, which with those before form one valid stream, each frame once.
  lemma {:induction false} DownloadAccounted(v: Validator, opts: Options, history: seq<Frame>,
                                             attempt: U32, host: string, port: U32, initial: U64, steps: seq<Step>)
    requires Tracks(v, opts, history) && initial > 0
    ensures DownloadSettled(Run(Opened(v, attempt, host, port, initial), steps), opts, history, initial)
  {
    var t0 := Opened(v, attempt, host, port, initial);
    var t := Run(t0, steps);
    OpenedOk(v, attempt, host, port, initial);
    OpenedLineOk(attempt, host, port);
    RunOk(t0, steps);
    RunCredit(t0, initial, steps);
    OpenedUpload(v, opts, history, attempt, host, port, initial);
    RunUpload(t0, opts, history, steps);
    WireIsPrefix(t);
  }
}
