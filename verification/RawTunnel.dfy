// egress/assignment.go: rawTunnelStream and streamTunnelDownload. A run loop
// and a download goroutine share the frame builder, the credit gate and the
// connection; every interleaving of the two is a sequence of the steps below.
// A step that is not enabled leaves the state as it is.

module RawTunnel {
  import opened Frames
  import opened StreamValidator
  import opened CreditGate
  import opened TunnelWire
  import D = Download

  datatype ReadError = Eof | ConnClosed | ContextError | OtherError

  datatype WriteResult = Wrote | WriteFailed(written: nat, reason: string)

  // Where the run loop is: at its select statement, handing a grant to the
  // gate's queue, between numbering and publishing a frame (`last` if it
  // returns afterwards), or returned.
  datatype Loop = Selecting | Granting(amount: U64) | Announcing(last: bool) | Returned

  // Where the download goroutine is: reading the connection, holding bytes it
  // has credit to wait for, between numbering and publishing a chunk, or done.
  datatype Down =
    | Reading
    | Holding(remaining: seq<Byte>, err: Option<ReadError>)
    | Publishing(remaining: seq<Byte>, err: Option<ReadError>)
    | Finished

  datatype Tunnel = Tunnel(
    line: Line,
    loop: Loop,
    down: Down,
    offset: U64,             // of the next download chunk
    bytesRead: seq<Byte>,    // everything read from the connection
    gaveUp: bool,            // the download stopped for want of credit
    done: Option<ReadError>, // what the download reported
    gate: Gate,
    queue: seq<U64>,
    validator: Validator,
    log: seq<Frame>,         // frames accepted since the tunnel opened
    upstream: seq<Byte>,     // everything written to the connection
    writeFailed: bool,
    contextDone: bool)

  datatype Step =
    | LoopDone
    | LoopContext
    | LoopTick(at: nat)
    | LoopFrame(frame: Frame, at: nat, write: WriteResult)
    | LoopGrant
    | LoopPublish
    | DownRead(bytes: seq<Byte>, err: Option<ReadError>)
    | DownReceive
    | DownNumber
    | DownGiveUp
    | DownPublish
    | EndContext

  const ESTABLISHED: U32 := 200

  // Before the download starts, numbering and publishing go together.
  function PublishNow(l: Line, payload: Payload): Line {
    Emit(Assign(l, RunLoop, payload), RunLoop)
  }

  function OpenedLine(attempt: U32, host: string, port: U32): Line {
    PublishNow(PublishNow(NewLine(attempt), OutboundStart(host, port)), ResponseStart(ESTABLISHED))
  }

  // The tunnel is open: its first two frames are published and both
  // goroutines are about to run.
  function Opened(v: Validator, attempt: U32, host: string, port: U32, initial: U64): Tunnel {
    Tunnel(OpenedLine(attempt, host, port), Selecting, Reading, 0, [], false, None, NewGate(initial), [], v, [], [], false, false)
  }

  function DonePayload(err: ReadError): Payload {
    if err == Eof || err == ConnClosed then End(true)
    else Error(ErrorInfo(UpstreamReset, "upstream_reset_before_headers"))
  }

  // The run loop numbers a frame; publishing it is a step of its own.
  function Announce(t: Tunnel, payload: Payload, last: bool): Tunnel {
    t.(line := Assign(t.line, RunLoop, payload), loop := Announcing(last))
  }

  function OnData(t: Tunnel, data: seq<Byte>, write: WriteResult): Tunnel {
    match write
    case Wrote =>
      Announce(t.(upstream := t.upstream + data), Credit(Wrap64(|data|), 0), false)
    case WriteFailed(written, reason) =>
      var n := if written <= |data| then written else |data|;
      Announce(t.(upstream := t.upstream + data[..n], writeFailed := true), Error(ErrorInfo(UpstreamReset, reason)), true)
  }

  // handleFrame, for a frame the validator has accepted.
  function OnAccepted(t: Tunnel, f: Frame, write: WriteResult): Tunnel {
    if f.IsData() then OnData(t, f.payload.data, write)
    else if D.IsCredit(f) then
      if D.GrantOf(f) != [] && t.gate.Gate? then t.(loop := Granting(D.GrantOf(f)[0])) else t
    else if D.IsCancel(f) then Announce(t, Cancelled(f.payload.cancelReason), true)
    else t
  }

  function OnFrame(t: Tunnel, f: Frame, at: nat, write: WriteResult): Tunnel {
    var (outcome, v) := AcceptStep(t.validator, f, at);
    if outcome != Accepted then t
    else OnAccepted(t.(validator := v, log := t.log + [f]), f, write)
  }

  // The download's next move once its bytes are all published.
  function AfterBytes(t: Tunnel, err: Option<ReadError>): Tunnel {
    if err.Some? then t.(down := Finished, done := err) else t.(down := Reading)
  }

  function TakenCount(t: Tunnel): (n: nat)
    requires t.down.Holding? && t.down.remaining != [] && t.gate != Gate(0)
    ensures 1 <= n <= |t.down.remaining|
  {
    TakeCredit(t.gate, |t.down.remaining|).0
  }

  function NumberChunk(t: Tunnel): Tunnel
    requires t.down.Holding? && t.down.remaining != [] && t.gate != Gate(0)
  {
    var n := TakenCount(t);
    var chunk := t.down.remaining[..n];
    t.(line := Assign(t.line, TunnelWire.Download, Data(t.offset, chunk)),
       gate := TakeCredit(t.gate, |t.down.remaining|).1,
       offset := Wrap64(t.offset + n),
       down := Publishing(t.down.remaining[n..], t.down.err))
  }

  function EmitChunk(t: Tunnel): Tunnel
    requires t.down.Publishing? && t.line.downFrame.Some?
  {
    var t' := t.(line := Emit(t.line, TunnelWire.Download));
    if t.down.remaining == [] then AfterBytes(t', t.down.err)
    else t'.(down := Holding(t.down.remaining, t.down.err))
  }

  predicate Enabled(t: Tunnel, step: Step) {
    match step
    case LoopDone => t.loop.Selecting? && t.done.Some?
    case LoopContext => t.loop.Selecting? && t.contextDone
    case LoopTick(_) => t.loop.Selecting?
    case LoopFrame(_, _, _) => t.loop.Selecting?
    case LoopGrant => t.loop.Granting? && |t.queue| < GRANT_QUEUE_CAPACITY
    case LoopPublish => t.loop.Announcing? && t.line.loopFrame.Some?
    case DownRead(bytes, _) => t.down.Reading? && |bytes| <= FRAME_DATA_BYTES
    case DownReceive => t.down.Holding? && t.gate == Gate(0) && t.queue != []
    case DownNumber => t.down.Holding? && t.down.remaining != [] && t.gate != Gate(0)
    case DownGiveUp => t.down.Holding? && t.gate == Gate(0) && t.contextDone
    case DownPublish => t.down.Publishing? && t.line.downFrame.Some?
    case EndContext => true
  }

  function Next(t: Tunnel, step: Step): Tunnel {
    if !Enabled(t, step) then t
    else
      match step
      case LoopDone => Announce(t, DonePayload(t.done.value), true)
      case LoopContext => Announce(t, Error(ErrorInfo(TimeoutExceeded, "request_cancelled")), true)
      case LoopTick(at) => if t.validator.IdleExpired(at) then t.(loop := Returned) else t
      case LoopFrame(f, at, write) => OnFrame(t, f, at, write)
      case LoopGrant => t.(queue := t.queue + [t.loop.amount], loop := Selecting)
      case LoopPublish =>
        t.(line := Emit(t.line, RunLoop), loop := if t.loop.last then Returned else Selecting)
      case DownRead(bytes, err) =>
        var t' := t.(bytesRead := t.bytesRead + bytes);
        if bytes == [] then AfterBytes(t', err) else t'.(down := Holding(bytes, err))
      case DownReceive => t.(gate := Gate(Wrap64(t.gate.credit + t.queue[0])), queue := t.queue[1..])
      case DownNumber => NumberChunk(t)
      case DownGiveUp => t.(down := Finished, done := Some(ContextError), gaveUp := true)
      case DownPublish => EmitChunk(t)
      case EndContext => t.(contextDone := true)
  }

  function Run(t: Tunnel, steps: seq<Step>): Tunnel {
    if steps == [] then t else Next(Run(t, steps[..|steps| - 1]), steps[|steps| - 1])
  }

  // ------------------------------------------------ order of the published frames

  ghost predicate WireOk(t: Tunnel) {
    && WellNumbered(t.line) && Merged(t.line)
    && (t.line.loopFrame.Some? <==> t.loop.Announcing?)
    && (t.line.downFrame.Some? <==> t.down.Publishing?)
  }

  ghost predicate SameDownload(t: Tunnel, t': Tunnel) {
    && t'.down == t.down && t'.offset == t.offset && t'.bytesRead == t.bytesRead
    && t'.gaveUp == t.gaveUp && t'.done == t.done
  }

  // The run loop moved without numbering anything.
  ghost predicate LoopQuiet(t: Tunnel, t': Tunnel) {
    SameDownload(t, t') && t'.line == t.line && !t.loop.Announcing? && !t.loop.Returned? && !t'.loop.Announcing?
  }

  // The run loop numbered one frame, which it will publish next; it returns
  // after that exactly if the frame is terminal.
  ghost predicate LoopNumbered(t: Tunnel, t': Tunnel, payload: Payload) {
    && SameDownload(t, t')
    && t.loop.Selecting?
    && t'.line == Assign(t.line, RunLoop, payload)
    && t'.loop == Announcing(payload.IsTerminal())
    && !payload.NoPayload? && !payload.Data? && !payload.BodyRef?
    && (payload.End? ==> t.done.Some? && (t.done.value == Eof || t.done.value == ConnClosed))
  }

  lemma AcceptedEffect(t: Tunnel, f: Frame, write: WriteResult) returns (payload: Payload)
    requires t.loop.Selecting?
    ensures var t' := OnAccepted(t, f, write); LoopQuiet(t, t') || LoopNumbered(t, t', payload)
  {
    payload := NoPayload;
    if f.IsData() {
      match write
      case Wrote => payload := Credit(Wrap64(|f.payload.data|), 0);
      case WriteFailed(_, reason) => payload := Error(ErrorInfo(UpstreamReset, reason));
    } else if D.IsCancel(f) {
      payload := Cancelled(f.payload.cancelReason);
    }
  }

  lemma FrameEffect(t: Tunnel, f: Frame, at: nat, write: WriteResult) returns (payload: Payload)
    requires t.loop.Selecting?
    ensures var t' := OnFrame(t, f, at, write); LoopQuiet(t, t') || LoopNumbered(t, t', payload)
  {
    var (outcome, v) := AcceptStep(t.validator, f, at);
    payload := NoPayload;
    if outcome == Accepted {
      payload := AcceptedEffect(t.(validator := v, log := t.log + [f]), f, write);
    }
  }

  predicate LoopMove(step: Step) {
    step.LoopDone? || step.LoopContext? || step.LoopTick? || step.LoopFrame? || step.LoopGrant?
  }

  // Every move of the run loop but the publishing itself is one of those two.
  lemma LoopEffect(t: Tunnel, step: Step) returns (payload: Payload)
    requires Enabled(t, step) && LoopMove(step)
    ensures LoopQuiet(t, Next(t, step)) || LoopNumbered(t, Next(t, step), payload)
  {
    payload := NoPayload;
    match step
    case LoopDone => payload := DonePayload(t.done.value);
    case LoopContext => payload := Error(ErrorInfo(TimeoutExceeded, "request_cancelled"));
    case LoopFrame(f, at, write) => payload := FrameEffect(t, f, at, write);
    case _ =>
  }

  lemma NumberedWireOk(t: Tunnel, t': Tunnel, payload: Payload)
    requires WireOk(t) && LoopNumbered(t, t', payload)
    ensures WireOk(t')
  {
    AssignWellNumbered(t.line, RunLoop, payload);
    AssignMerged(t.line, RunLoop, payload);
  }

  lemma DownWireOk(t: Tunnel, step: Step)
    requires WireOk(t) && Enabled(t, step)
    requires step.DownNumber? || step.DownPublish?
    ensures WireOk(Next(t, step))
  {
    if step.DownNumber? {
      var payload := Data(t.offset, t.down.remaining[..TakenCount(t)]);
      AssignWellNumbered(t.line, TunnelWire.Download, payload);
      AssignMerged(t.line, TunnelWire.Download, payload);
    } else {
      EmitMerged(t.line, TunnelWire.Download);
      EmitWellNumbered(t.line, TunnelWire.Download);
    }
  }

  lemma NextWireOk(t: Tunnel, step: Step)
    requires WireOk(t)
    ensures WireOk(Next(t, step))
  {
    if Enabled(t, step) {
      if LoopMove(step) {
        var payload := LoopEffect(t, step);
        if !LoopQuiet(t, Next(t, step)) {
          NumberedWireOk(t, Next(t, step), payload);
        }
      } else if step.LoopPublish? {
        EmitMerged(t.line, RunLoop);
        EmitWellNumbered(t.line, RunLoop);
      } else if step.DownNumber? || step.DownPublish? {
        DownWireOk(t, step);
      }
    }
  }
}
