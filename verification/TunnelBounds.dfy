// egress/assignment.go: the limits every run of a tunnel keeps (the credit
// queue's capacity, the size of a chunk), and when a goroutine has to wait.

module TunnelBounds {
  import opened Frames
  import opened StreamValidator
  import opened CreditGate
  import opened TunnelWire
  import opened RawTunnel
  import opened TunnelSafety

  predicate GoodChunk(f: Frame) {
    f.IsData() ==> 1 <= |f.payload.data| <= 32768
  }

  ghost predicate GoodChunks(frames: seq<Frame>) {
    forall i :: 0 <= i < |frames| ==> GoodChunk(frames[i])
  }

  lemma GoodChunksSnoc(frames: seq<Frame>, f: Frame)
    requires GoodChunks(frames) && GoodChunk(f)
    ensures GoodChunks(frames + [f])
  {
  }

  ghost predicate Bounded(t: Tunnel) {
    && |t.queue| <= 32
    && GoodChunks(t.line.numbered)
    && (t.down.Holding? ==> 1 <= |t.down.remaining| <= 32768)
    && (t.down.Publishing? ==> |t.down.remaining| <= 32768)
  }

  lemma LoopBounded(t: Tunnel, step: Step)
    requires Bounded(t) && Enabled(t, step) && LoopMove(step)
    ensures Bounded(Next(t, step))
  {
    var payload := LoopEffect(t, step);
    if LoopNumbered(t, Next(t, step), payload) {
      GoodChunksSnoc(t.line.numbered, Frame(Wrap64(t.line.seqNo + 1), t.line.attempt, payload));
    }
  }

  lemma NumberBounded(t: Tunnel)
    requires Bounded(t) && Enabled(t, DownNumber)
    ensures Bounded(Next(t, DownNumber))
  {
    var payload := Data(t.offset, t.down.remaining[..TakenCount(t)]);
    GoodChunksSnoc(t.line.numbered, Frame(Wrap64(t.line.seqNo + 1), t.line.attempt, payload));
  }

  lemma NextBounded(t: Tunnel, step: Step)
    requires Bounded(t)
    ensures Bounded(Next(t, step))
  {
    if Enabled(t, step) {
      if LoopMove(step) {
        LoopBounded(t, step);
      } else if step.DownNumber? {
        NumberBounded(t);
      }
    }
  }

  lemma {:induction false} RunBounded(t: Tunnel, steps: seq<Step>)
    requires Bounded(t)
    ensures Bounded(Run(t, steps))
  {
    if steps == [] {
    } else {
      RunBounded(t, steps[..|steps| - 1]);
      NextBounded(Run(t, steps[..|steps| - 1]), steps[|steps| - 1]);
    }
  }

  lemma OpenedBounded(v: Validator, attempt: U32, host: string, port: U32, initial: U64)
    ensures Bounded(Opened(v, attempt, host, port, initial))
  {
  }

  // In every schedule: the credit queue holds 32 grants at most, and every chunk
  // of the download between 1 and 32768 bytes.
  lemma {:induction false} TunnelLimits(
    v: Validator, attempt: U32, host: string, port: U32, initial: U64, steps: seq<Step>, t: Tunnel)
    requires t == Run(Opened(v, attempt, host, port, initial), steps)
    ensures |t.queue| <= 32
    ensures forall i :: 0 <= i < |t.line.numbered| ==> GoodChunk(t.line.numbered[i])
  {
    OpenedBounded(v, attempt, host, port, initial);
    RunBounded(Opened(v, attempt, host, port, initial), steps);
  }

  // The download goroutine can move, whatever the connection has to offer.
  ghost predicate DownloadMoves(t: Tunnel) {
    && (t.down.Reading? ==> forall bytes, err :: |bytes| <= 32768 ==> Enabled(t, DownRead(bytes, err)))
    && (t.down.Holding? ==> Enabled(t, DownReceive) || Enabled(t, DownNumber) || Enabled(t, DownGiveUp))
    && (t.down.Publishing? ==> Enabled(t, DownPublish))
  }

  // So can the run loop, whatever arrives.
  ghost predicate LoopMoves(t: Tunnel) {
    && (t.loop.Selecting? ==> forall f, at, write :: Enabled(t, LoopFrame(f, at, write)))
    && (t.loop.Granting? ==> Enabled(t, LoopGrant))
    && (t.loop.Announcing? ==> Enabled(t, LoopPublish))
  }

  // Out of credit, with bytes to send and nothing in the queue.
  predicate Starved(t: Tunnel) {
    t.down.Holding? && t.gate == Gate(0) && t.queue == []
  }

  // The download waits for nothing but credit, and gives it up only when the
  // context has ended; the run loop for nothing but room in a full queue. They
  // never wait for each other.
  lemma {:induction false} WaitsOnlyForCredit(
    v: Validator, attempt: U32, host: string, port: U32, initial: U64, steps: seq<Step>, t: Tunnel)
    requires t == Run(Opened(v, attempt, host, port, initial), steps)
    ensures DownloadMoves(t) <==> !(Starved(t) && !t.contextDone)
    ensures LoopMoves(t) <==> !(t.loop.Granting? && |t.queue| == 32)
    ensures DownloadMoves(t) || LoopMoves(t)
    ensures Enabled(t, DownGiveUp) ==> t.contextDone && t.down.Holding? && t.gate == Gate(0)
  {
    OpenedBounded(v, attempt, host, port, initial);
    RunBounded(Opened(v, attempt, host, port, initial), steps);
    OpenedOk(v, attempt, host, port, initial);
    RunOk(Opened(v, attempt, host, port, initial), steps);
    LoopCanMove(t);
    DownCanMove(t);
  }

  lemma DownCanMove(t: Tunnel)
    requires Bounded(t) && WireOk(t)
    ensures DownloadMoves(t) <==> !(Starved(t) && !t.contextDone)
  {
  }

  lemma LoopCanMove(t: Tunnel)
    requires Bounded(t) && WireOk(t)
    ensures LoopMoves(t) <==> !(t.loop.Granting? && |t.queue| == 32)
  {
    if t.loop.Granting? {
      assert Enabled(t, LoopGrant) <==> |t.queue| < 32;
    } else if t.loop.Announcing? {
      assert Enabled(t, LoopPublish);
    }
  }
}
