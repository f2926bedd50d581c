// What the other side makes of the tunnel's frames, given that numbering and
// publishing are separate steps.

module TunnelAtControl {
  import opened Frames
  import opened StreamValidator
  import opened TunnelWire
  import opened RawTunnel
  import opened TunnelSafety
  import opened TunnelOrder
  import Network

  function PublishedAt(l: Line, k: nat): Frame
    requires k < |l.wire|
  {
    if l.wire[k] < |l.numbered| then l.numbered[l.wire[k]] else NilFrame
  }

  // The frames in the order they are published.
  function WireFrames(l: Line): (frames: seq<Frame>)
    ensures |frames| == |l.wire|
  {
    seq(|l.wire|, k requires 0 <= k < |l.wire| => PublishedAt(l, k))
  }

  lemma OrderlyContinues(l: Line, opts: Options, k: nat)
    requires WellNumbered(l) && DataInOrder(l) && |l.wire| <= |l.numbered| && |l.wire| <= MAX_U64 && Orderly(l)
    requires |DataBytes(l.numbered)| <= opts.initialCredit && l.attempt == opts.attempt
    requires forall i :: 0 <= i < |l.numbered| ==> !l.numbered[i].IsBodyRef()
    requires k < |l.wire|
    ensures Extends(opts, l.numbered[..k], l.numbered[k])
  {
    assert NumberedAt(l, k) && DataAt(l, k);
    DataBytesThrough(l.numbered, k);
    if HasTerminal(l.numbered[..k]) {
      var i :| 0 <= i < k && l.numbered[..k][i].IsTerminal();
      assert TerminalAt(l, i);
    }
  }

  lemma OrderlyIsValid(l: Line, opts: Options)
    requires WellNumbered(l) && DataInOrder(l) && |l.wire| <= MAX_U64 && Orderly(l)
    requires |DataBytes(l.numbered)| <= opts.initialCredit && l.attempt == opts.attempt
    requires forall i :: 0 <= i < |l.numbered| ==> !l.numbered[i].IsBodyRef()
    ensures ValidStream(opts, WireFrames(l))
  {
    var frames := WireFrames(l);
    assert |l.wire| <= |l.numbered| by {
      if l.wire != [] {
        assert l.wire[|l.wire| - 1] == |l.wire| - 1;
      }
    }
    forall k | 0 <= k < |frames|
      ensures Fits(opts, frames, k)
    {
      assert frames[..k] == l.numbered[..k];
      OrderlyContinues(l, opts, k);
    }
  }

  lemma TerminalBefore(frames: seq<Frame>, k: nat, n: nat)
    requires k <= n < |frames| && frames[k].IsTerminal()
    ensures k < n ==> HasTerminal(frames[..n])
  {
    if k < n {
      assert frames[..n][k].IsTerminal();
    }
  }

  lemma ValidIsOrderly(l: Line, opts: Options)
    requires WellNumbered(l) && Counted(l)
    requires forall k :: 0 <= k < |l.wire| ==> l.wire[k] < |l.numbered|
    requires ValidStream(opts, WireFrames(l))
    ensures Orderly(l) && |l.wire| <= MAX_U64
  {
    var frames := WireFrames(l);
    ValidStreamBounds(opts, frames);
    Network.ValidStreamIsNumbered(opts, frames);
    forall k | 0 <= k < |l.wire|
      ensures l.wire[k] == k
    {
      assert NumberedAt(l, l.wire[k]);
      assert frames[k].streamSeq == k + 1;
    }
    forall k | 0 <= k < |l.wire| && TerminalAt(l, k)
      ensures k == |l.wire| - 1
    {
      var last := |l.wire| - 1;
      assert Fits(opts, frames, last);
      TerminalBefore(frames, k, last);
    }
  }

  ghost predicate NoReferences(l: Line) {
    forall i :: 0 <= i < |l.numbered| ==> !l.numbered[i].IsBodyRef()
  }

  lemma NextNoReferences(t: Tunnel, step: Step)
    requires NoReferences(t.line)
    ensures NoReferences(Next(t, step).line)
  {
    if Enabled(t, step) {
      if LoopMove(step) {
        var payload := LoopEffect(t, step);
      } else if !step.LoopPublish? {
        DownEffect(t, step);
        DownNoReferences(t.line, Next(t, step).line);
      }
    }
  }

  lemma DownNoReferences(l: Line, l': Line)
    requires NoReferences(l) && l.numbered <= l'.numbered
    requires forall i :: |l.numbered| <= i < |l'.numbered| ==> l'.numbered[i].IsData()
    ensures NoReferences(l')
  {
    forall i | 0 <= i < |l'.numbered|
      ensures !l'.numbered[i].IsBodyRef()
    {
      assert i < |l.numbered| ==> l'.numbered[i] == l.numbered[i];
    }
  }

  lemma {:induction false} RunNoReferences(t: Tunnel, steps: seq<Step>)
    requires NoReferences(t.line)
    ensures NoReferences(Run(t, steps).line)
  {
    if steps == [] {
    } else {
      RunNoReferences(t, steps[..|steps| - 1]);
      NextNoReferences(Run(t, steps[..|steps| - 1]), steps[|steps| - 1]);
    }
  }

  ghost predicate Sound(l: Line) {
    && WellNumbered(l) && DataInOrder(l) && NoReferences(l) && Counted(l)
    && forall k :: 0 <= k < |l.wire| ==> l.wire[k] < |l.numbered|
  }

  lemma RunSound(t: Tunnel, steps: seq<Step>)
    requires Ok(t) && NoReferences(t.line) && Counted(t.line)
    ensures Sound(Run(t, steps).line)
  {
    RunOk(t, steps);
    RunCounted(t, steps);
    RunNoReferences(t, steps);
  }

  lemma OpenedSound(v: Validator, attempt: U32, host: string, port: U32, initial: U64)
    ensures Ok(Opened(v, attempt, host, port, initial))
    ensures NoReferences(Opened(v, attempt, host, port, initial).line)
    ensures Counted(Opened(v, attempt, host, port, initial).line)
  {
    OpenedOk(v, attempt, host, port, initial);
  }

  lemma LineAcceptedIffOrderly(l: Line, opts: Options, t0: nat, arrivals: seq<Network.Arrival>)
    requires Sound(l)
    requires |DataBytes(l.numbered)| <= opts.initialCredit && opts.attempt == l.attempt
    requires Network.ArrivedFrames(arrivals) == WireFrames(l)
    ensures Network.Feed(Fresh(opts, t0), arrivals).1 == WireFrames(l) <==> Orderly(l) && |l.wire| <= MAX_U64
  {
    Network.InOrderAccepted(opts, t0, arrivals);
    if Orderly(l) && |l.wire| <= MAX_U64 {
      OrderlyIsValid(l, opts);
    }
    if ValidStream(opts, WireFrames(l)) {
      ValidIsOrderly(l, opts);
    }
  }

  // When the other side accepts all of it: for any schedule, a fresh validator
  // with the same attempt and enough credit accepts the published frames in
  // full exactly if every publication happened in turn and there were sequence
  // numbers for all. The code does not see to the first (ReorderedRun,
  // FullDuplexRun).
  lemma AcceptedIffInTurn(
    v: Validator, attempt: U32, host: string, port: U32, initial: U64, steps: seq<Step>, l: Line,
    opts: Options, t0: nat, arrivals: seq<Network.Arrival>)
    requires l == Run(Opened(v, attempt, host, port, initial), steps).line
    requires |DataBytes(l.numbered)| <= opts.initialCredit && opts.attempt == l.attempt
    requires Network.ArrivedFrames(arrivals) == WireFrames(l)
    ensures Network.Feed(Fresh(opts, t0), arrivals).1 == WireFrames(l)
            <==> InTurn(Opened(v, attempt, host, port, initial), steps) && |l.wire| <= MAX_U64
  {
    OpenedSound(v, attempt, host, port, initial);
    RunSound(Opened(v, attempt, host, port, initial), steps);
    LineAcceptedIffOrderly(l, opts, t0, arrivals);
    OrderlyIffInTurn(v, attempt, host, port, initial, steps);
  }

  // ------------------------------------------- over a network that loses frames

  lemma NumberedLine(l: Line)
    requires WellNumbered(l) && |l.numbered| <= MAX_U64
    ensures Network.Numbered(l.numbered)
  {
    forall i | 0 <= i < |l.numbered|
      ensures l.numbered[i].Frame? && l.numbered[i].streamSeq == i + 1
    {
      assert NumberedAt(l, i);
    }
  }

  // What is published was numbered.
  lemma DrawnFromNumbered(l: Line, opts: Options, arrivals: seq<Network.Arrival>)
    requires forall k :: 0 <= k < |l.wire| ==> l.wire[k] < |l.numbered|
    requires Network.DrawnFrom(opts, WireFrames(l), arrivals)
    ensures Network.DrawnFrom(opts, l.numbered, arrivals)
  {
    var frames := WireFrames(l);
    forall i | 0 <= i < |arrivals|
      ensures arrivals[i].frame in l.numbered || Network.Junk(opts, arrivals[i].frame)
    {
      if arrivals[i].frame in frames {
        var k :| 0 <= k < |frames| && frames[k] == arrivals[i].frame;
        assert PublishedAt(l, k) == l.numbered[l.wire[k]];
      }
    }
  }

  // An End frame among the first m frames is the last of all, and what they
  // carry is everything read.
  lemma EndCompletes(t: Tunnel, m: nat)
    requires Ok(t) && m <= |t.line.numbered|
    requires exists i :: 0 <= i < m && t.line.numbered[i].IsEnd()
    ensures m == |t.line.numbered| && DataBytes(t.line.numbered) == t.bytesRead
  {
    var i :| 0 <= i < m && t.line.numbered[i].IsEnd();
    assert EndAt(t.line, i);
    assert EndIsLast(t, i);
    NothingMore(DataBytes(t.line.numbered));
  }

  // Whatever the schedule and however badly the network treats what is
  // published, a fresh validator accepts a prefix of the frames in number order
  // and delivers a prefix of the bytes read; and if it accepts an End, it has
  // accepted every frame and delivered every byte.
  lemma {:induction false} TunnelDelivers(
    v: Validator, attempt: U32, host: string, port: U32, initial: U64, steps: seq<Step>, t: Tunnel,
    opts: Options, t0: nat, arrivals: seq<Network.Arrival>)
    requires t == Run(Opened(v, attempt, host, port, initial), steps) && |t.line.numbered| <= MAX_U64
    requires Network.DrawnFrom(opts, WireFrames(t.line), arrivals)
    ensures var accepted := Network.Feed(Fresh(opts, t0), arrivals).1;
            && accepted <= t.line.numbered
            && DataBytes(accepted) <= t.bytesRead
            && ((exists i :: 0 <= i < |accepted| && accepted[i].IsEnd()) ==>
                  accepted == t.line.numbered && DataBytes(accepted) == t.bytesRead)
  {
    OpenedOk(v, attempt, host, port, initial);
    RunOk(Opened(v, attempt, host, port, initial), steps);
    LineDelivers(t, opts, t0, arrivals);
  }

  lemma LineDelivers(t: Tunnel, opts: Options, t0: nat, arrivals: seq<Network.Arrival>)
    requires Ok(t) && |t.line.numbered| <= MAX_U64
    requires Network.DrawnFrom(opts, WireFrames(t.line), arrivals)
    ensures var accepted := Network.Feed(Fresh(opts, t0), arrivals).1;
            && accepted <= t.line.numbered
            && DataBytes(accepted) <= t.bytesRead
            && ((exists i :: 0 <= i < |accepted| && accepted[i].IsEnd()) ==>
                  accepted == t.line.numbered && DataBytes(accepted) == t.bytesRead)
  {
    var l, accepted := t.line, Network.Feed(Fresh(opts, t0), arrivals).1;
    NumberedLine(l);
    DrawnFromNumbered(l, opts, arrivals);
    Network.AcceptedIsPrefix(opts, t0, l.numbered, arrivals);
    assert accepted == l.numbered[..|accepted|];
    DataBytesMonotone(l.numbered, |accepted|);
    WireIsPrefix(t);
    if i :| 0 <= i < |accepted| && accepted[i].IsEnd() {
      assert l.numbered[i].IsEnd();
      EndCompletes(t, |accepted|);
      assert l.numbered[..|l.numbered|] == l.numbered;
    }
  }

  // ------------------------------------------------- two runs out of turn

  lemma RunTwo(t: Tunnel, first: Step, second: Step)
    ensures Run(t, [first, second]) == Next(Next(t, first), second)
  {
    assert [first, second][..1] == [first] && [first][..0] == [];
    assert Run(t, [first]) == Next(t, first);
  }

  lemma RunSnoc(t: Tunnel, steps: seq<Step>, step: Step)
    ensures Run(t, steps + [step]) == Next(Run(t, steps), step)
  {
    assert (steps + [step])[..|steps|] == steps;
  }

  lemma {:induction false} RunConcat(t: Tunnel, a: seq<Step>, b: seq<Step>)
    ensures Run(t, a + b) == Run(Run(t, a), b)
  {
    if b == [] {
      assert a + b == a;
    } else {
      var init, last := b[..|b| - 1], b[|b| - 1];
      RunConcat(t, a, init);
      SeqAssoc(a, init, [last]);
      assert b == init + [last];
      RunSnoc(t, a + init, last);
      RunSnoc(Run(t, a), init, last);
    }
  }

  lemma ChunkNumbered(t: Tunnel)
    requires t.down.Reading? && t.gate.NilGate?
    ensures var t' := Next(Next(t, DownRead([7], None)), DownNumber);
            && t'.line == Assign(t.line, TunnelWire.Download, Data(t.offset, [7]))
            && t'.down == Publishing([], None) && t'.loop == t.loop && t'.validator == t.validator
  {
    var bytes: seq<Byte> := [7];
    var t1 := t.(bytesRead := t.bytesRead + bytes, down := Holding(bytes, None));
    assert Next(t, DownRead(bytes, None)) == t1;
    assert TakenCount(t1) == 1 && bytes[..1] == bytes;
  }

  lemma ContextNumbered(t: Tunnel)
    requires t.loop.Selecting?
    ensures var t' := Next(Next(t, EndContext), LoopContext);
            && t'.line == Assign(t.line, RunLoop, Error(ErrorInfo(TimeoutExceeded, "request_cancelled")))
            && t'.loop == Announcing(true) && t'.down == t.down
  {
  }

  lemma BothPublished(t: Tunnel)
    requires t.loop.Announcing? && t.down.Publishing? && t.line.loopFrame.Some? && t.line.downFrame.Some?
    ensures var t' := Next(Next(t, LoopPublish), DownPublish);
            t'.line == Emit(Emit(t.line, RunLoop), TunnelWire.Download)
  {
  }

  lemma CreditPublished(t: Tunnel, f: Frame, at: nat)
    requires t.loop.Selecting? && f.IsData() && AcceptStep(t.validator, f, at).0 == Accepted
    ensures var t' := Next(Next(t, LoopFrame(f, at, Wrote)), LoopPublish);
            && t'.line == Emit(Assign(t.line, RunLoop, Credit(Wrap64(|f.payload.data|), 0)), RunLoop)
            && t'.loop.Selecting? && t'.down == t.down
  {
    assert Next(t, LoopFrame(f, at, Wrote)).loop == Announcing(false);
  }

  lemma ChunkPublished(t: Tunnel)
    requires t.down == Publishing([], None) && t.line.downFrame.Some?
    ensures var t' := Next(Next(t, DownPublish), DownRead([], Some(Eof)));
            && t'.line == Emit(t.line, TunnelWire.Download)
            && t'.loop == t.loop && t'.done == Some(Eof)
  {
    assert Next(t, DownPublish).down.Reading?;
  }

  lemma EndPublished(t: Tunnel)
    requires t.loop.Selecting? && t.done == Some(Eof)
    ensures var t' := Next(Next(t, LoopDone), LoopPublish);
            && t'.line == Emit(Assign(t.line, RunLoop, End(true)), RunLoop)
            && t'.loop.Returned?
  {
    assert Next(t, LoopDone).loop == Announcing(true);
  }

  lemma ReorderedLine(l: Line, chunk: Payload, other: Payload)
    requires l.wire == [0, 1] && |l.numbered| == 2
    ensures var r := Emit(Emit(Assign(Assign(l, TunnelWire.Download, chunk), RunLoop, other), RunLoop), TunnelWire.Download);
            && r.wire == [0, 1, 3, 2] && |r.numbered| == 4
            && r.numbered[2].Frame? && r.numbered[2].payload == chunk
            && r.numbered[3].Frame? && r.numbered[3].payload == other
            && r.loopFrame.None?
  {
  }

  // A tunnel without download limit about to start.
  ghost predicate AtStart(t: Tunnel) {
    && t.line.wire == [0, 1] && |t.line.numbered| == 2
    && t.loop.Selecting? && t.down.Reading? && t.gate.NilGate?
  }

  lemma OpenedAtStart(v: Validator, attempt: U32, host: string, port: U32)
    ensures AtStart(Opened(v, attempt, host, port, 0)) && Opened(v, attempt, host, port, 0).validator == v
  {
  }

  const CHUNK: seq<Step> := [DownRead([7], None), DownNumber]

  lemma ChunkRun(t: Tunnel)
    requires t.down.Reading? && t.gate.NilGate?
    ensures var t' := Run(t, CHUNK);
            && t'.line == Assign(t.line, TunnelWire.Download, Data(t.offset, [7]))
            && t'.down == Publishing([], None) && t'.loop == t.loop && t'.validator == t.validator
  {
    RunTwo(t, DownRead([7], None), DownNumber);
    ChunkNumbered(t);
  }

  // A chunk is numbered 3, the run loop then numbers an error 4 for the ended
  // context and publishes it first. The wire carries 1, 2, 4, 3: out of order,
  // and with data after the error.
  lemma ReorderedRun(v: Validator, attempt: U32, host: string, port: U32)
    ensures var steps := CHUNK + [EndContext, LoopContext] + [LoopPublish, DownPublish];
            var t := Run(Opened(v, attempt, host, port, 0), steps);
            && t.line.wire == [0, 1, 3, 2] && |t.line.numbered| == 4
            && t.line.numbered[3].IsTerminal() && t.line.numbered[2].IsData()
            && !Orderly(t.line)
  {
    var t0 := Opened(v, attempt, host, port, 0);
    OpenedAtStart(v, attempt, host, port);
    ReorderedFrom(t0);
    RunConcat(t0, CHUNK, [EndContext, LoopContext]);
    RunConcat(t0, CHUNK + [EndContext, LoopContext], [LoopPublish, DownPublish]);
  }

  lemma ReorderedFrom(t: Tunnel)
    requires AtStart(t)
    ensures var t' := Run(Run(Run(t, CHUNK), [EndContext, LoopContext]), [LoopPublish, DownPublish]);
            && t'.line.wire == [0, 1, 3, 2] && |t'.line.numbered| == 4
            && t'.line.numbered[3].IsTerminal() && t'.line.numbered[2].IsData()
            && !Orderly(t'.line)
  {
    ChunkRun(t);
    var t1 := Run(t, CHUNK);
    RunTwo(t1, EndContext, LoopContext);
    ContextNumbered(t1);
    var t2 := Run(t1, [EndContext, LoopContext]);
    RunTwo(t2, LoopPublish, DownPublish);
    BothPublished(t2);
    ReorderedLine(t.line, Data(t.offset, [7]), Error(ErrorInfo(TimeoutExceeded, "request_cancelled")));
    assert Run(t2, [LoopPublish, DownPublish]).line.wire[2] == 3;
  }

  // The End path is no different while bytes go both ways: a chunk is numbered
  // 3, the run loop then acknowledges an upload with number 4 and publishes
  // that first. The tunnel ends well, with its End last and largest, and yet
  // the wire carries 1, 2, 4, 3, 5.
  lemma FullDuplexRun(v: Validator, attempt: U32, host: string, port: U32, f: Frame, at: nat)
    requires f.IsData() && AcceptStep(v, f, at).0 == Accepted
    ensures var steps := CHUNK + [LoopFrame(f, at, Wrote), LoopPublish]
                         + [DownPublish, DownRead([], Some(Eof))] + [LoopDone, LoopPublish];
            var t := Run(Opened(v, attempt, host, port, 0), steps);
            && t.loop.Returned? && t.line.wire == [0, 1, 3, 2, 4]
            && EndAt(t.line, 4)
            && !Orderly(t.line)
  {
    var t0 := Opened(v, attempt, host, port, 0);
    var write, eof := [LoopFrame(f, at, Wrote), LoopPublish], [DownPublish, DownRead([], Some(Eof))];
    OpenedAtStart(v, attempt, host, port);
    DuplexFrom(t0, f, at);
    RunConcat(t0, CHUNK, write);
    RunConcat(t0, CHUNK + write, eof);
    RunConcat(t0, CHUNK + write + eof, [LoopDone, LoopPublish]);
  }

  lemma DuplexFrom(t: Tunnel, f: Frame, at: nat)
    requires AtStart(t) && f.IsData() && AcceptStep(t.validator, f, at).0 == Accepted
    ensures var t1 := Run(Run(t, CHUNK), [LoopFrame(f, at, Wrote), LoopPublish]);
            var t' := Run(Run(t1, [DownPublish, DownRead([], Some(Eof))]), [LoopDone, LoopPublish]);
            && t'.loop.Returned? && t'.line.wire == [0, 1, 3, 2, 4]
            && EndAt(t'.line, 4)
            && !Orderly(t'.line)
  {
    ChunkRun(t);
    var t1 := Run(t, CHUNK);
    RunTwo(t1, LoopFrame(f, at, Wrote), LoopPublish);
    CreditPublished(t1, f, at);
    var t2 := Run(t1, [LoopFrame(f, at, Wrote), LoopPublish]);
    RunTwo(t2, DownPublish, DownRead([], Some(Eof)));
    ChunkPublished(t2);
    var t3 := Run(t2, [DownPublish, DownRead([], Some(Eof))]);
    RunTwo(t3, LoopDone, LoopPublish);
    EndPublished(t3);
    ReorderedLine(t.line, Data(t.offset, [7]), Credit(Wrap64(|f.payload.data|), 0));
    EndedLine(t3.line);
  }

  lemma EndedLine(l: Line)
    requires l.wire == [0, 1, 3, 2] && |l.numbered| == 4 && l.loopFrame.None?
    ensures var r := Emit(Assign(l, RunLoop, End(true)), RunLoop);
            r.wire == [0, 1, 3, 2, 4] && EndAt(r, 4) && !Orderly(r)
  {
    var r := Emit(Assign(l, RunLoop, End(true)), RunLoop);
    assert r.wire[2] == 3;
  }

  // The replay of a frame accepted earlier, before the tunnel opened or since,
  // is as if it had not arrived.
  lemma ReplayInvisible(t: Tunnel, opts: Options, history: seq<Frame>, f: Frame, at: nat, write: WriteResult)
    requires Tracks(t.validator, opts, history + t.log) && f in history + t.log
    ensures Next(t, LoopFrame(f, at, write)) == t
  {
    ReplayOutcome(t.validator, opts, history + t.log, f, at);
  }
}
