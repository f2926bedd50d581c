// What every interleaving of the tunnel's run loop and download goroutine keeps.

module TunnelSafety {
  import opened Frames
  import opened StreamValidator
  import opened CreditGate
  import opened TunnelWire
  import opened RawTunnel
  import D = Download
  import Network

  // ------------------------------------------------------------- download data

  function Remaining(t: Tunnel): seq<Byte> {
    if t.down.Holding? || t.down.Publishing? then t.down.remaining else []
  }

  // Every byte read is numbered, or still in hand, or was given up at the end.
  ghost predicate DataOk(t: Tunnel) {
    && DataInOrder(t.line)
    && t.offset == Wrap64(|DataBytes(t.line.numbered)|)
    && (t.down.Finished? <==> t.done.Some?)
    && (t.gaveUp ==> t.down.Finished? && t.done == Some(ContextError) && DataBytes(t.line.numbered) <= t.bytesRead)
    && (!t.gaveUp ==> DataBytes(t.line.numbered) + Remaining(t) == t.bytesRead)
  }

  lemma NumberedData(t: Tunnel, t': Tunnel, payload: Payload)
    requires WireOk(t) && DataOk(t) && LoopNumbered(t, t', payload)
    ensures DataOk(t')
  {
    AssignData(t.line, RunLoop, payload);
    assert DataBytes(t.line.numbered) + [] == DataBytes(t.line.numbered);
  }

  lemma NumberChunkData(t: Tunnel)
    requires WireOk(t) && DataOk(t) && Enabled(t, DownNumber)
    ensures DataOk(NumberChunk(t))
  {
    ChunkNumberedData(t, NumberChunk(t), TakenCount(t));
  }

  // The next n bytes in hand have become a numbered chunk.
  lemma ChunkNumberedData(t: Tunnel, t': Tunnel, n: nat)
    requires DataOk(t) && t.line.downFrame.None? && t.down.Holding? && n <= |t.down.remaining|
    requires t'.line == Assign(t.line, TunnelWire.Download, Data(t.offset, t.down.remaining[..n]))
    requires t'.offset == Wrap64(t.offset + n) && t'.down == Publishing(t.down.remaining[n..], t.down.err)
    requires t'.bytesRead == t.bytesRead && t'.gaveUp == t.gaveUp && t'.done == t.done
    ensures DataOk(t')
  {
    var sofar := DataBytes(t.line.numbered);
    AssignData(t.line, TunnelWire.Download, Data(t.offset, t.down.remaining[..n]));
    WrapAdd(|sofar|, n);
    Regroup(sofar, t.down.remaining, n);
  }

  lemma Regroup(a: seq<Byte>, b: seq<Byte>, n: nat)
    requires n <= |b|
    ensures (a + b[..n]) + b[n..] == a + b
    ensures |a + b[..n]| == |a| + n
  {
    assert b == b[..n] + b[n..];
  }

  // Publishing changes only where the frames are.
  lemma EmittedData(t: Tunnel, t': Tunnel)
    requires DataOk(t) && DataInOrder(t'.line) && t'.line.numbered == t.line.numbered
    requires t'.offset == t.offset && t'.bytesRead == t.bytesRead && t'.gaveUp == t.gaveUp
    requires Remaining(t') == Remaining(t)
    requires t.gaveUp ==> t'.down == t.down && t'.done == t.done
    requires t'.down.Finished? <==> t'.done.Some?
    ensures DataOk(t')
  {
  }

  lemma EmitChunkShape(t: Tunnel)
    requires Enabled(t, DownPublish) && t.done.None?
    ensures var t' := EmitChunk(t);
            && t'.line == Emit(t.line, TunnelWire.Download)
            && t'.offset == t.offset && t'.bytesRead == t.bytesRead && t'.gaveUp == t.gaveUp
            && Remaining(t') == Remaining(t)
            && (t'.down.Finished? <==> t'.done.Some?)
  {
  }

  lemma EmitChunkData(t: Tunnel)
    requires DataOk(t) && Enabled(t, DownPublish)
    ensures DataOk(EmitChunk(t))
  {
    EmitData(t.line, TunnelWire.Download);
    EmitChunkShape(t);
    EmittedData(t, EmitChunk(t));
  }

  lemma ReadData(t: Tunnel, bytes: seq<Byte>, err: Option<ReadError>)
    requires DataOk(t) && Enabled(t, DownRead(bytes, err))
    ensures DataOk(Next(t, DownRead(bytes, err)))
  {
    var sofar := DataBytes(t.line.numbered);
    assert sofar + [] == sofar;
    assert bytes == [] ==> t.bytesRead + bytes == t.bytesRead;
  }

  lemma GiveUpData(t: Tunnel)
    requires DataOk(t) && Enabled(t, DownGiveUp)
    ensures DataOk(Next(t, DownGiveUp))
  {
    assert DataBytes(t.line.numbered) <= DataBytes(t.line.numbered) + Remaining(t);
  }

  lemma NextDataOk(t: Tunnel, step: Step)
    requires WireOk(t) && DataOk(t)
    ensures DataOk(Next(t, step))
  {
    if Enabled(t, step) {
      if LoopMove(step) {
        var payload := LoopEffect(t, step);
        if !LoopQuiet(t, Next(t, step)) {
          NumberedData(t, Next(t, step), payload);
        }
      } else {
        match step
        case LoopPublish =>
          EmitData(t.line, RunLoop);
          EmittedData(t, Next(t, step));
        case DownRead(bytes, err) => ReadData(t, bytes, err);
        case DownNumber => NumberChunkData(t);
        case DownPublish => EmitChunkData(t);
        case DownGiveUp => GiveUpData(t);
        case _ =>
      }
    }
  }

  // ------------------------------------------------------------ terminal frames

  ghost predicate TerminalAt(l: Line, i: nat) {
    i < |l.numbered| && l.numbered[i].IsTerminal()
  }

  predicate Ending(t: Tunnel) {
    t.loop.Returned? || (t.loop.Announcing? && t.loop.last)
  }

  // Terminal frame i is the last the run loop numbered, and the last it
  // publishes.
  ghost predicate LastOfLoop(t: Tunnel, i: nat) {
    && Ending(t)
    && (t.loop.Announcing? ==> t.line.loopFrame == Some(i))
    && (t.loop.Returned? ==> i in t.line.wire)
  }

  predicate EndAt(l: Line, i: nat) {
    i < |l.numbered| && l.numbered[i].IsEnd()
  }

  // An End frame has the largest number and comes after the whole download has
  // been published; once published itself, it is the last frame on the wire.
  ghost predicate EndIsLast(t: Tunnel, i: nat) {
    && i == |t.line.numbered| - 1
    && t.down.Finished? && !t.gaveUp
    && (t.loop.Returned? ==> t.line.wire != [] && t.line.wire[|t.line.wire| - 1] == i)
  }

  ghost predicate TerminalOk(t: Tunnel) {
    && (forall i: nat, j: nat :: TerminalAt(t.line, i) && TerminalAt(t.line, j) ==> i == j)
    && (forall i: nat :: TerminalAt(t.line, i) ==> LastOfLoop(t, i))
    && (forall i: nat :: EndAt(t.line, i) ==> EndIsLast(t, i))
  }

  lemma NumberedTerminal(t: Tunnel, t': Tunnel, payload: Payload)
    requires WireOk(t) && DataOk(t) && TerminalOk(t) && LoopNumbered(t, t', payload)
    ensures TerminalOk(t')
  {
    var n := |t.line.numbered|;
    forall i: nat | TerminalAt(t'.line, i)
      ensures i == n && payload.IsTerminal()
    {
      assert i < n ==> TerminalAt(t.line, i);
    }
    forall i: nat | EndAt(t'.line, i)
      ensures EndIsLast(t', i)
    {
      assert TerminalAt(t'.line, i);
    }
  }

  // The download goroutine leaves the run loop alone; it may number a data
  // frame and may publish one, and once finished it does nothing.
  ghost predicate DownMoved(t: Tunnel, t': Tunnel) {
    && t'.loop == t.loop && t'.line.loopFrame == t.line.loopFrame
    && t.line.wire <= t'.line.wire
    && t.line.numbered <= t'.line.numbered
    && (forall i :: |t.line.numbered| <= i < |t'.line.numbered| ==> t'.line.numbered[i].IsData())
    && (t.down.Finished? ==> t'.line == t.line && t'.down == t.down && t'.gaveUp == t.gaveUp)
  }

  lemma DownEffect(t: Tunnel, step: Step)
    requires Enabled(t, step) && !LoopMove(step) && !step.LoopPublish?
    ensures DownMoved(t, Next(t, step))
  {
    if step.DownNumber? {
      NumberEffect(t);
    } else if step.DownPublish? {
      EmitEffect(t);
    }
  }

  lemma NumberEffect(t: Tunnel)
    requires Enabled(t, DownNumber)
    ensures DownMoved(t, NumberChunk(t))
  {
  }

  lemma EmitEffect(t: Tunnel)
    requires Enabled(t, DownPublish)
    ensures DownMoved(t, EmitChunk(t))
  {
  }

  lemma DownTerminal(t: Tunnel, t': Tunnel)
    requires TerminalOk(t) && DownMoved(t, t')
    ensures TerminalOk(t')
  {
    forall i: nat | TerminalAt(t'.line, i)
      ensures TerminalAt(t.line, i) && LastOfLoop(t', i)
    {
      assert TerminalAt(t.line, i);
      assert LastOfLoop(t, i);
    }
    forall i: nat | EndAt(t'.line, i)
      ensures EndIsLast(t', i)
    {
      assert TerminalAt(t'.line, i);
      assert EndAt(t.line, i);
      assert EndIsLast(t, i);
    }
  }

  lemma PublishTerminal(t: Tunnel)
    requires WireOk(t) && DataOk(t) && TerminalOk(t) && Enabled(t, LoopPublish)
    ensures TerminalOk(Next(t, LoopPublish))
  {
    var t' := Next(t, LoopPublish);
    assert t'.line.wire[|t.line.wire|] == t.line.loopFrame.value;
    forall i: nat | TerminalAt(t'.line, i)
      ensures TerminalAt(t.line, i) && LastOfLoop(t', i)
    {
      assert TerminalAt(t.line, i);
      assert LastOfLoop(t, i);
    }
    forall i: nat | EndAt(t'.line, i)
      ensures EndIsLast(t', i)
    {
      assert TerminalAt(t'.line, i);
      assert EndAt(t.line, i);
      assert EndIsLast(t, i);
    }
  }

  lemma NextTerminalOk(t: Tunnel, step: Step)
    requires WireOk(t) && DataOk(t) && TerminalOk(t)
    ensures TerminalOk(Next(t, step))
  {
    if Enabled(t, step) {
      if LoopMove(step) {
        var payload := LoopEffect(t, step);
        if LoopQuiet(t, Next(t, step)) {
          QuietTerminal(t, Next(t, step));
        } else {
          NumberedTerminal(t, Next(t, step), payload);
        }
      } else if step.LoopPublish? {
        PublishTerminal(t);
      } else {
        DownEffect(t, step);
        DownTerminal(t, Next(t, step));
      }
    }
  }

  lemma QuietTerminal(t: Tunnel, t': Tunnel)
    requires TerminalOk(t) && LoopQuiet(t, t')
    ensures TerminalOk(t')
  {
    assert !Ending(t) && t'.line == t.line;
    assert forall i: nat :: EndAt(t.line, i) ==> TerminalAt(t.line, i);
  }

  // ------------------------------------------------- offsets as the wire has them

  // A data chunk in flight is the last data frame numbered.
  ghost predicate ChunkIsNewest(l: Line) {
    l.downFrame.Some? ==> forall i :: l.downFrame.value < i < |l.numbered| ==> !l.numbered[i].IsData()
  }

  // The data frame at wire position k continues the data published before it.
  ghost predicate ContinuesAt(l: Line, k: nat)
    requires k < |l.wire| && forall j :: 0 <= j < |l.wire| ==> l.wire[j] < |l.numbered|
  {
    var f := l.numbered[l.wire[k]];
    f.IsData() ==> f.payload.offset == Wrap64(|WireData(l, l.wire[..k])|)
  }

  ghost predicate OffsetsOk(l: Line) {
    && (forall j :: 0 <= j < |l.wire| ==> l.wire[j] < |l.numbered|)
    && ChunkIsNewest(l)
    && forall k :: 0 <= k < |l.wire| ==> ContinuesAt(l, k)
  }

  lemma {:induction false} NoDataAfter(frames: seq<Frame>, n: nat)
    requires n <= |frames|
    requires forall i :: n <= i < |frames| ==> !frames[i].IsData()
    ensures DataBytes(frames) == DataBytes(frames[..n])
  {
    if n < |frames| {
      var m := |frames| - 1;
      NoDataAfter(frames[..m], n);
      assert frames[..m][..n] == frames[..n];
    } else {
      assert frames[..n] == frames;
    }
  }

  lemma AssignOffsets(l: Line, o: Origin, payload: Payload)
    requires OffsetsOk(l) && l.InFlight(o).None?
    requires o == TunnelWire.Download <==> payload.Data?
    ensures OffsetsOk(Assign(l, o, payload))
  {
    var l' := Assign(l, o, payload);
    forall k | 0 <= k < |l'.wire|
      ensures ContinuesAt(l', k)
    {
      assert ContinuesAt(l, k);
      WireDataStable(l, l', l.wire[..k]);
    }
  }

  lemma EmitOffsets(l: Line, o: Origin)
    requires OffsetsOk(l) && DataInOrder(l) && l.InFlight(o).Some?
    ensures OffsetsOk(Emit(l, o))
  {
    var l' := Emit(l, o);
    var n := |l.wire|;
    forall k | 0 <= k < n
      ensures ContinuesAt(l', k)
    {
      assert ContinuesAt(l, k);
      assert l'.wire[..k] == l.wire[..k];
      WireDataStable(l, l', l.wire[..k]);
    }
    EmittedContinues(l, o);
  }

  lemma SameLength(a: seq<Byte>, b: seq<Byte>, c: seq<Byte>)
    requires a + c == b + c
    ensures |a| == |b|
  {
    assert |a + c| == |b + c|;
  }

  // A chunk in flight starts where the published data ends.
  lemma ChunkStarts(l: Line, i: nat)
    requires DataInOrder(l) && ChunkIsNewest(l) && l.downFrame == Some(i) && l.numbered[i].IsData()
    ensures |WireData(l, l.wire)| == |DataBytes(l.numbered[..i])|
  {
    NoDataAfter(l.numbered, i + 1);
    DataBytesUpTo(l.numbered, i);
    SameLength(WireData(l, l.wire), DataBytes(l.numbered[..i]), l.numbered[i].Bytes());
  }

  lemma EmittedContinues(l: Line, o: Origin)
    requires OffsetsOk(l) && DataInOrder(l) && l.InFlight(o).Some?
    ensures ContinuesAt(Emit(l, o), |l.wire|)
  {
    var l', i := Emit(l, o), l.InFlight(o).value;
    assert l'.wire[..|l.wire|] == l.wire;
    WireDataStable(l, l', l.wire);
    assert DataAt(l, i);
    if l.numbered[i].IsData() {
      ChunkStarts(l, i);
    }
  }

  lemma NextOffsetsOk(t: Tunnel, step: Step)
    requires WireOk(t) && DataOk(t) && OffsetsOk(t.line)
    ensures OffsetsOk(Next(t, step).line)
  {
    if Enabled(t, step) {
      if LoopMove(step) {
        var payload := LoopEffect(t, step);
        if !LoopQuiet(t, Next(t, step)) {
          AssignOffsets(t.line, RunLoop, payload);
        }
      } else if step.LoopPublish? {
        EmitOffsets(t.line, RunLoop);
      } else if step.DownPublish? {
        EmitOffsets(t.line, TunnelWire.Download);
      } else if step.DownNumber? {
        AssignOffsets(t.line, TunnelWire.Download, Data(t.offset, t.down.remaining[..TakenCount(t)]));
      }
    }
  }

  // ------------------------------------------------------------- main results

  ghost predicate Ok(t: Tunnel) {
    WireOk(t) && DataOk(t) && TerminalOk(t) && OffsetsOk(t.line)
  }

  // A line with nothing in flight.
  ghost predicate IdleLine(l: Line) {
    && WellNumbered(l) && Merged(l) && DataInOrder(l) && OffsetsOk(l)
    && l.loopFrame.None? && l.downFrame.None?
  }

  lemma PublishNowIdle(l: Line, payload: Payload)
    requires IdleLine(l) && !payload.NoPayload? && !payload.Data?
    ensures IdleLine(PublishNow(l, payload))
    ensures DataBytes(PublishNow(l, payload).numbered) == DataBytes(l.numbered)
  {
    AssignWellNumbered(l, RunLoop, payload);
    AssignMerged(l, RunLoop, payload);
    AssignData(l, RunLoop, payload);
    EmitWellNumbered(Assign(l, RunLoop, payload), RunLoop);
    EmitMerged(Assign(l, RunLoop, payload), RunLoop);
    EmitData(Assign(l, RunLoop, payload), RunLoop);
    AssignOffsets(l, RunLoop, payload);
    EmitOffsets(Assign(l, RunLoop, payload), RunLoop);
  }

  lemma PublishNowTerminals(l: Line, payload: Payload)
    requires !payload.IsTerminal()
    requires forall i: nat :: !TerminalAt(l, i)
    ensures forall i: nat :: !TerminalAt(PublishNow(l, payload), i)
  {
    assert forall i: nat :: TerminalAt(PublishNow(l, payload), i) ==> TerminalAt(l, i);
  }

  // A line that has published no data and no terminal frame.
  ghost predicate OpeningLine(l: Line) {
    IdleLine(l) && DataBytes(l.numbered) == [] && forall i: nat :: !TerminalAt(l, i)
  }

  lemma NewLineOpening(attempt: U32)
    ensures OpeningLine(NewLine(attempt))
  {
  }

  lemma PublishNowOpening(l: Line, payload: Payload)
    requires OpeningLine(l) && !payload.NoPayload? && !payload.Data? && !payload.IsTerminal()
    ensures OpeningLine(PublishNow(l, payload))
  {
    PublishNowIdle(l, payload);
    PublishNowTerminals(l, payload);
  }

  lemma OpenedLineOk(attempt: U32, host: string, port: U32)
    ensures OpeningLine(OpenedLine(attempt, host, port))
  {
    NewLineOpening(attempt);
    PublishNowOpening(NewLine(attempt), OutboundStart(host, port));
    PublishNowOpening(PublishNow(NewLine(attempt), OutboundStart(host, port)), ResponseStart(ESTABLISHED));
  }

  lemma OpenedOk(v: Validator, attempt: U32, host: string, port: U32, initial: U64)
    ensures Ok(Opened(v, attempt, host, port, initial))
  {
    OpenedLineOk(attempt, host, port);
    IdleOk(Opened(v, attempt, host, port, initial));
  }

  lemma IdleOk(t: Tunnel)
    requires OpeningLine(t.line)
    requires t.loop.Selecting? && t.down.Reading? && t.done.None? && !t.gaveUp && t.offset == 0 && t.bytesRead == []
    ensures Ok(t)
  {
    NoTerminals(t);
  }

  lemma NoTerminals(t: Tunnel)
    requires forall i: nat :: !TerminalAt(t.line, i)
    ensures TerminalOk(t)
  {
    assert forall i: nat :: EndAt(t.line, i) ==> TerminalAt(t.line, i);
  }

  lemma NextOk(t: Tunnel, step: Step)
    requires Ok(t)
    ensures Ok(Next(t, step))
  {
    NextWireOk(t, step);
    NextDataOk(t, step);
    NextTerminalOk(t, step);
    NextOffsetsOk(t, step);
  }

  lemma {:induction false} RunOk(t: Tunnel, steps: seq<Step>)
    requires Ok(t)
    ensures Ok(Run(t, steps))
  {
    if steps == [] {
    } else {
      RunOk(t, steps[..|steps| - 1]);
      NextOk(Run(t, steps[..|steps| - 1]), steps[|steps| - 1]);
    }
  }

  function WireFrame(l: Line, k: nat): Frame
    requires k < |l.wire| && l.wire[k] < |l.numbered|
  {
    l.numbered[l.wire[k]]
  }

  // What is on the wire: frames numbered 1, 2, 3, ..., each at most once; of
  // two frames of one goroutine, the one with the smaller number first; and
  // data that is a prefix of what was read, each chunk at the offset where the
  // data published before it ends.
  ghost predicate SafeWire(t: Tunnel) {
    var l := t.line;
    && (forall k :: 0 <= k < |l.wire| ==> l.wire[k] < |l.numbered| == |l.owner|)
    && (forall i :: 0 <= i < |l.numbered| ==> l.numbered[i].Frame? && l.numbered[i].streamSeq == Wrap64(i + 1))
    && (forall j, k :: 0 <= j < k < |l.wire| ==>
          && l.wire[j] != l.wire[k]
          && (l.owner[l.wire[j]] == l.owner[l.wire[k]] ==> l.wire[j] < l.wire[k]))
    && WireData(l, l.wire) <= t.bytesRead
    && (forall k :: 0 <= k < |l.wire| ==> ContinuesAt(l, k))
  }

  lemma OkSafeWire(t: Tunnel)
    requires Ok(t)
    ensures SafeWire(t)
  {
    var l := t.line;
    forall i | 0 <= i < |l.numbered|
      ensures l.numbered[i].Frame? && l.numbered[i].streamSeq == Wrap64(i + 1)
    {
      assert NumberedAt(l, i);
    }
    forall j, k | 0 <= j < k < |l.wire|
      ensures l.wire[j] != l.wire[k] && (l.owner[l.wire[j]] == l.owner[l.wire[k]] ==> l.wire[j] < l.wire[k])
    {
      assert InOrder(l, j, k);
    }
    WireIsPrefix(t);
  }

  // In every interleaving.
  lemma {:induction false} WireSafe(v: Validator, attempt: U32, host: string, port: U32, initial: U64, steps: seq<Step>)
    ensures SafeWire(Run(Opened(v, attempt, host, port, initial), steps))
  {
    OpenedOk(v, attempt, host, port, initial);
    RunOk(Opened(v, attempt, host, port, initial), steps);
    OkSafeWire(Run(Opened(v, attempt, host, port, initial), steps));
  }

  lemma WireIsPrefix(t: Tunnel)
    requires DataOk(t)
    ensures WireData(t.line, t.line.wire) <= DataBytes(t.line.numbered) <= t.bytesRead
  {
    if !t.gaveUp {
      assert DataBytes(t.line.numbered) <= DataBytes(t.line.numbered) + Remaining(t);
    }
  }

  // At most one terminal frame is on the wire. If it is an End frame it is
  // last, it has the largest number, every number handed out is on the wire,
  // and the data on the wire is everything that was read.
  ghost predicate SafeTerminal(t: Tunnel) {
    var l := t.line;
    && (forall k :: 0 <= k < |l.wire| ==> l.wire[k] < |l.numbered|)
    && (forall j, k | 0 <= j < |l.wire| && 0 <= k < |l.wire| ::
          WireFrame(l, j).IsTerminal() && WireFrame(l, k).IsTerminal() ==> l.wire[j] == l.wire[k])
    && (forall k :: 0 <= k < |l.wire| && EndAt(l, l.wire[k]) ==>
          && k == |l.wire| - 1
          && l.wire[k] == |l.numbered| - 1
          && (forall i :: 0 <= i < |l.numbered| ==> i in l.wire)
          && WireData(l, l.wire) == t.bytesRead)
  }

  lemma OkSafeTerminal(t: Tunnel)
    requires Ok(t)
    ensures SafeTerminal(t)
  {
    var l := t.line;
    forall j, k | 0 <= j < |l.wire| && 0 <= k < |l.wire| && WireFrame(l, j).IsTerminal() && WireFrame(l, k).IsTerminal()
      ensures l.wire[j] == l.wire[k]
    {
      assert TerminalAt(l, l.wire[j]) && TerminalAt(l, l.wire[k]);
    }
    forall k | 0 <= k < |l.wire| && EndAt(l, l.wire[k])
      ensures k == |l.wire| - 1 && l.wire[k] == |l.numbered| - 1
      ensures (forall i :: 0 <= i < |l.numbered| ==> i in l.wire) && WireData(l, l.wire) == t.bytesRead
    {
      EndOnWire(t, k);
    }
  }

  // In every interleaving.
  lemma {:induction false} TerminalSafe(v: Validator, attempt: U32, host: string, port: U32, initial: U64, steps: seq<Step>)
    ensures SafeTerminal(Run(Opened(v, attempt, host, port, initial), steps))
  {
    OpenedOk(v, attempt, host, port, initial);
    RunOk(Opened(v, attempt, host, port, initial), steps);
    OkSafeTerminal(Run(Opened(v, attempt, host, port, initial), steps));
  }

  lemma EndOnWire(t: Tunnel, k: nat)
    requires Ok(t) && k < |t.line.wire| && EndAt(t.line, t.line.wire[k])
    ensures var l := t.line;
            && k == |l.wire| - 1 && l.wire[k] == |l.numbered| - 1
            && (forall i :: 0 <= i < |l.numbered| ==> i in l.wire)
            && WireData(l, l.wire) == t.bytesRead
  {
    var l, e := t.line, t.line.wire[k];
    assert EndIsLast(t, e);
    assert TerminalAt(l, e);
    assert LastOfLoop(t, e);
    assert t.loop.Announcing? ==> BeforeInFlight(l, RunLoop, k);
    var last := |l.wire| - 1;
    assert k < last ==> InOrder(l, k, last);
    forall i | 0 <= i < |l.numbered|
      ensures i in l.wire
    {
      assert Accounted(l, i);
    }
    assert WireData(l, l.wire) + [] == WireData(l, l.wire);
    assert DataBytes(l.numbered) + [] == DataBytes(l.numbered);
  }

  // ------------------------------------------------------- how a tunnel ends

  // The run loop is about to return after a publication exactly if the frame
  // it is publishing is terminal.
  ghost predicate LastIsTerminal(t: Tunnel) {
    t.loop.Announcing? && t.line.loopFrame.Some? ==> (t.loop.last <==> TerminalAt(t.line, t.line.loopFrame.value))
  }

  lemma NextLastIsTerminal(t: Tunnel, step: Step)
    requires Ok(t) && LastIsTerminal(t)
    ensures LastIsTerminal(Next(t, step))
  {
    if Enabled(t, step) {
      if LoopMove(step) {
        var payload := LoopEffect(t, step);
      } else if !step.LoopPublish? {
        DownEffect(t, step);
        DownLastIsTerminal(t, Next(t, step));
      }
    }
  }

  lemma DownLastIsTerminal(t: Tunnel, t': Tunnel)
    requires WireOk(t) && LastIsTerminal(t) && DownMoved(t, t')
    ensures LastIsTerminal(t')
  {
  }

  lemma {:induction false} RunLastIsTerminal(t: Tunnel, steps: seq<Step>)
    requires Ok(t) && LastIsTerminal(t)
    ensures LastIsTerminal(Run(t, steps))
  {
    if steps == [] {
    } else {
      RunOk(t, steps[..|steps| - 1]);
      RunLastIsTerminal(t, steps[..|steps| - 1]);
      NextLastIsTerminal(Run(t, steps[..|steps| - 1]), steps[|steps| - 1]);
    }
  }

  // The idle tick, on which the run loop returns without a word.
  predicate IdleTick(t: Tunnel, step: Step) {
    step.LoopTick? && t.loop.Selecting? && t.validator.IdleExpired(step.at)
  }

  // The step in which the run loop returns either publishes the tunnel's one
  // terminal frame, or is an idle tick, and then the tunnel has none.
  ghost predicate EndsWell(t: Tunnel, step: Step) {
    var l' := Next(t, step).line;
    if IdleTick(t, step) then l' == t.line && forall i: nat :: !TerminalAt(l', i)
    else l'.wire != [] && TerminalAt(l', l'.wire[|l'.wire| - 1])
  }

  lemma ReturnEndsWell(t: Tunnel, step: Step)
    requires Ok(t) && LastIsTerminal(t)
    requires !t.loop.Returned? && Next(t, step).loop.Returned?
    ensures EndsWell(t, step)
  {
    if step.LoopPublish? {
      PublishEndsWell(t);
    } else {
      OnlyIdleReturns(t, step);
      assert !Ending(t);
      assert forall i: nat :: TerminalAt(t.line, i) ==> LastOfLoop(t, i);
    }
  }

  lemma PublishEndsWell(t: Tunnel)
    requires LastIsTerminal(t) && Enabled(t, LoopPublish) && t.loop.last
    ensures EndsWell(t, LoopPublish)
  {
  }

  lemma OnlyIdleReturns(t: Tunnel, step: Step)
    requires !step.LoopPublish? && !t.loop.Returned? && Next(t, step).loop.Returned?
    ensures IdleTick(t, step) && Next(t, step).line == t.line
  {
    if LoopMove(step) {
      var payload := LoopEffect(t, step);
      OnlyTickReturns(t, step);
    } else {
      DownEffect(t, step);
    }
  }

  lemma OnlyTickReturns(t: Tunnel, step: Step)
    requires LoopMove(step) && !t.loop.Returned? && Next(t, step).loop.Returned?
    ensures IdleTick(t, step)
  {
  }

  lemma {:induction false} TunnelEnds(v: Validator, attempt: U32, host: string, port: U32, initial: U64,
                                      steps: seq<Step>, t: Tunnel, step: Step)
    requires t == Run(Opened(v, attempt, host, port, initial), steps)
    requires !t.loop.Returned? && Next(t, step).loop.Returned?
    ensures EndsWell(t, step)
  {
    OpenedOk(v, attempt, host, port, initial);
    RunOk(Opened(v, attempt, host, port, initial), steps);
    RunLastIsTerminal(Opened(v, attempt, host, port, initial), steps);
    ReturnEndsWell(t, step);
  }
}
