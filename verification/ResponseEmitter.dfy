// egress/assignment.go: publishResponseProgress and publishResponseData, which
// number the frames an executor sends and cut its data to the credit at hand.

module ResponseEmitter {
  import opened Frames
  import opened CreditGate

  // What has been published: the last number used, the frames, and the data
  // bytes in them.
  datatype Outbound = Outbound(seqNo: U64, wire: seq<Frame>, sent: seq<Byte>)

  // `signals` is what the gate's select statement will still deliver, `grants`
  // what it has consumed. `cut` says that some send gave up on an ended
  // context, `waiting` that the current one is blocked for good in this run.
  datatype Emitter = Emitter(
    out: Outbound,
    gate: Gate,
    signals: seq<Signal>,
    grants: seq<U64>,
    cut: bool,
    waiting: bool)

  function NewEmitter(initialCredit: U64, signals: seq<Signal>): Emitter {
    Emitter(Outbound(0, [], []), NewGate(initialCredit), signals, [], false, false)
  }

  function Put(out: Outbound, attempt: U32, payload: Payload): Outbound {
    var f := Frame(Wrap64(out.seqNo + 1), attempt, payload);
    Outbound(f.streamSeq, out.wire + [f], out.sent + f.Bytes())
  }

  function Charge(e: Emitter, t: Take): Emitter {
    e.(gate := t.gate, signals := t.rest, grants := e.grants + t.grants)
  }

  datatype Round = Stopped(emitter: Emitter) | Went(emitter: Emitter, n: nat)

  // One round of the loop over a data payload: a chunk published, or the end.
  function SendChunk(e: Emitter, attempt: U32, offset: U64, remaining: seq<Byte>): (r: Round)
    requires remaining != []
    ensures r.Went? ==> 1 <= r.n <= |remaining| && r.n <= FRAME_DATA_BYTES
  {
    var limit := Min(|remaining|, FRAME_DATA_BYTES);
    var t := TakeAvailable(e.gate, limit, e.signals);
    TakeConserves(e.gate, limit, e.signals);
    match t.outcome
    case Waiting => Stopped(Charge(e, t).(waiting := true))
    case Refused => Stopped(Charge(e, t).(cut := true))
    case Took(n) => Went(Charge(e, t).(out := Put(e.out, attempt, Data(offset, remaining[..n]))), n)
  }

  function SendData(e: Emitter, attempt: U32, offset: U64, remaining: seq<Byte>): Emitter
    decreases |remaining|
  {
    if remaining == [] then e
    else
      match SendChunk(e, attempt, offset, remaining)
      case Stopped(e') => e'
      case Went(e', n) => SendData(e', attempt, Wrap64(offset + n), remaining[n..])
  }

  // One call of the executor's `send`.
  function Send(e: Emitter, item: Frame): Emitter
    requires item.Frame?
  {
    if e.waiting then e
    else if item.payload.Data? then SendData(e, item.attempt, item.payload.offset, item.payload.data)
    else e.(out := Put(e.out, item.attempt, item.payload))
  }

  ghost predicate Items(items: seq<Frame>) {
    forall i :: 0 <= i < |items| ==> items[i].Frame?
  }

  function SendAll(e: Emitter, items: seq<Frame>): Emitter
    requires Items(items)
  {
    if items == [] then e
    else Send(SendAll(e, items[..|items| - 1]), items[|items| - 1])
  }

  // ------------------------------------------------------ chunks of one payload

  function Flat(chunks: seq<seq<Byte>>): seq<Byte> {
    if chunks == [] then [] else chunks[0] + Flat(chunks[1..])
  }

  function PutChunks(out: Outbound, attempt: U32, offset: U64, chunks: seq<seq<Byte>>): Outbound
    decreases |chunks|
  {
    if chunks == [] then out
    else
      PutChunks(Put(out, attempt, Data(offset, chunks[0])), attempt, Wrap64(offset + |chunks[0]|), chunks[1..])
  }

  ghost predicate GoodChunks(chunks: seq<seq<Byte>>) {
    chunks == [] || (1 <= |chunks[0]| <= FRAME_DATA_BYTES && GoodChunks(chunks[1..]))
  }

  // One round of a send, as seen from outside: either it stops, with nothing
  // published, or it goes on behind a published chunk.
  lemma SendDataRound(e: Emitter, attempt: U32, offset: U64, remaining: seq<Byte>)
    returns (went: bool, mid: Emitter, n: nat)
    requires remaining != []
    ensures e.cut ==> mid.cut
    ensures e.waiting ==> mid.waiting
    ensures !went ==>
              && SendData(e, attempt, offset, remaining) == mid
              && mid.out == e.out && (mid.cut || mid.waiting)
    ensures went ==>
              && 1 <= n <= |remaining| && n <= FRAME_DATA_BYTES
              && SendData(e, attempt, offset, remaining) == SendData(mid, attempt, Wrap64(offset + n), remaining[n..])
              && mid.out == Put(e.out, attempt, Data(offset, remaining[..n]))
              && mid.cut == e.cut && mid.waiting == e.waiting
  {
    match SendChunk(e, attempt, offset, remaining)
    case Stopped(e') => went, mid, n := false, e', 0;
    case Went(e', k) => went, mid, n := true, e', k;
  }

  // `mid` is the emitter after a round that published n bytes, or stopped.
  predicate IsRound(e: Emitter, attempt: U32, offset: U64, remaining: seq<Byte>, went: bool, mid: Emitter, n: nat)
    requires remaining != []
  {
    SendChunk(e, attempt, offset, remaining) == if went then Went(mid, n) else Stopped(mid)
  }

  // A send is its first round and then the rest.
  lemma NextRound(e: Emitter, attempt: U32, offset: U64, remaining: seq<Byte>, went: bool, mid: Emitter, n: nat)
    requires remaining != [] && IsRound(e, attempt, offset, remaining, went, mid, n)
    ensures went ==>
              1 <= n <= |remaining|
              && SendData(e, attempt, offset, remaining) == SendData(mid, attempt, Wrap64(offset + n), remaining[n..])
    ensures !went ==> SendData(e, attempt, offset, remaining) == mid
  {
  }

  lemma PutChunksCons(out: Outbound, attempt: U32, offset: U64, chunk: seq<Byte>, rest: seq<seq<Byte>>)
    ensures GoodChunks([chunk] + rest) <==> 1 <= |chunk| <= FRAME_DATA_BYTES && GoodChunks(rest)
    ensures PutChunks(out, attempt, offset, [chunk] + rest)
            == PutChunks(Put(out, attempt, Data(offset, chunk)), attempt, Wrap64(offset + |chunk|), rest)
  {
    assert ([chunk] + rest)[1..] == rest;
  }

  // A send publishes chunks of 1 to 32768 bytes, one after the other.
  lemma {:induction false} SendDataChunks(e: Emitter, attempt: U32, offset: U64, remaining: seq<Byte>)
    returns (chunks: seq<seq<Byte>>)
    ensures GoodChunks(chunks)
    ensures SendData(e, attempt, offset, remaining).out == PutChunks(e.out, attempt, offset, chunks)
    decreases |remaining|
  {
    chunks := [];
    if remaining == [] {
    } else {
      var went, mid, n := SendDataRound(e, attempt, offset, remaining);
      if went {
        var rest := SendDataChunks(mid, attempt, Wrap64(offset + n), remaining[n..]);
        chunks := [remaining[..n]] + rest;
        PutChunksCons(e.out, attempt, offset, remaining[..n], rest);
      }
    }
  }

  lemma AppendTwice(base: seq<Byte>, s: seq<Byte>, n: nat, q: nat)
    requires n + q <= |s|
    ensures (base + s[..n]) + s[n..][..q] == base + s[..n + q]
  {
  }

  // They make up a prefix of the payload: all of it when the send neither gave
  // up nor is waiting, and less than that when it is waiting.
  lemma {:induction false} SendDataSent(e: Emitter, attempt: U32, offset: U64, remaining: seq<Byte>)
    returns (p: nat)
    ensures p <= |remaining|
    ensures var e' := SendData(e, attempt, offset, remaining);
            && e'.out.sent == e.out.sent + remaining[..p]
            && (e.cut ==> e'.cut) && (e.waiting ==> e'.waiting)
            && (!e'.cut && !e'.waiting ==> p == |remaining|)
            && (!e.waiting && e'.waiting ==> p < |remaining|)
            && (!e.cut && e'.cut ==> p < |remaining|)
    decreases |remaining|
  {
    p := 0;
    if remaining == [] {
    } else {
      var went, mid, n := SendDataRound(e, attempt, offset, remaining);
      if went {
        var q := SendDataSent(mid, attempt, Wrap64(offset + n), remaining[n..]);
        p := n + q;
        AppendTwice(e.out.sent, remaining, n, q);
      }
    }
  }

  lemma {:induction false} PutChunksFrames(out: Outbound, attempt: U32, offset: U64, chunks: seq<seq<Byte>>)
    requires GoodChunks(chunks)
    ensures var out' := PutChunks(out, attempt, offset, chunks);
            && out.wire <= out'.wire
            && |out'.wire| == |out.wire| + |chunks|
            && forall i :: |out.wire| <= i < |out'.wire| ==>
                 && out'.wire[i].IsData() && out'.wire[i].attempt == attempt
                 && 1 <= |out'.wire[i].payload.data| <= FRAME_DATA_BYTES
    decreases |chunks|
  {
    if chunks == [] {
    } else {
      PutChunksFrames(Put(out, attempt, Data(offset, chunks[0])), attempt, Wrap64(offset + |chunks[0]|), chunks[1..]);
    }
  }

  // Every frame of a send is a data frame of 1 to 32768 bytes.
  lemma ChunkSizes(e: Emitter, attempt: U32, offset: U64, remaining: seq<Byte>)
    ensures var before, after := e.out.wire, SendData(e, attempt, offset, remaining).out.wire;
            && before <= after
            && forall i :: |before| <= i < |after| ==>
                 && after[i].IsData() && after[i].attempt == attempt
                 && 1 <= |after[i].payload.data| <= FRAME_DATA_BYTES
  {
    var chunks := SendDataChunks(e, attempt, offset, remaining);
    PutChunksFrames(e.out, attempt, offset, chunks);
  }

  lemma {:induction false} PutChunksFlat(out: Outbound, attempt: U32, offset: U64, chunks: seq<seq<Byte>>)
    ensures PutChunks(out, attempt, offset, chunks).sent == out.sent + Flat(chunks)
    decreases |chunks|
  {
    if chunks == [] {
    } else {
      var rest := chunks[1..];
      PutChunksFlat(Put(out, attempt, Data(offset, chunks[0])), attempt, Wrap64(offset + |chunks[0]|), rest);
      SeqAssoc(out.sent, chunks[0], Flat(rest));
    }
  }

  // `sent` says what the wire carries.
  lemma {:induction false} PutChunksSent(out: Outbound, attempt: U32, offset: U64, chunks: seq<seq<Byte>>)
    requires out.sent == DataBytes(out.wire)
    ensures var out' := PutChunks(out, attempt, offset, chunks); out'.sent == DataBytes(out'.wire)
    decreases |chunks|
  {
    if chunks == [] {
    } else {
      PutSent(out, attempt, Data(offset, chunks[0]));
      PutChunksSent(Put(out, attempt, Data(offset, chunks[0])), attempt, Wrap64(offset + |chunks[0]|), chunks[1..]);
    }
  }

  lemma PutSent(out: Outbound, attempt: U32, payload: Payload)
    requires out.sent == DataBytes(out.wire)
    ensures Put(out, attempt, payload).sent == DataBytes(Put(out, attempt, payload).wire)
  {
    DataBytesSnoc(out.wire, Frame(Wrap64(out.seqNo + 1), attempt, payload));
  }

  // The chunks of a send, and how much of the payload they cover.
  lemma SendDataShape(e: Emitter, attempt: U32, offset: U64, remaining: seq<Byte>)
    returns (chunks: seq<seq<Byte>>)
    ensures GoodChunks(chunks) && Flat(chunks) <= remaining
    ensures var e' := SendData(e, attempt, offset, remaining);
            && e'.out == PutChunks(e.out, attempt, offset, chunks)
            && (e.cut ==> e'.cut)
            && (!e'.cut && !e'.waiting ==> Flat(chunks) == remaining)
            && (!e.waiting && e'.waiting ==> |Flat(chunks)| < |remaining|)
            && (!e.cut && e'.cut ==> |Flat(chunks)| < |remaining|)
  {
    chunks := SendDataChunks(e, attempt, offset, remaining);
    PutChunksFlat(e.out, attempt, offset, chunks);
    var p := SendDataSent(e, attempt, offset, remaining);
    Cancel(e.out.sent, Flat(chunks), remaining[..p]);
  }

  lemma Cancel(base: seq<Byte>, a: seq<Byte>, b: seq<Byte>)
    requires base + a == base + b
    ensures a == b
  {
    assert a == (base + a)[|base|..] && b == (base + b)[|base|..];
  }

  // What one `send` adds to the bytes published.
  lemma SendPublishes(e: Emitter, item: Frame)
    requires item.Frame? && e.out.sent == DataBytes(e.out.wire)
    ensures var e' := Send(e, item);
            && e'.out.sent == DataBytes(e'.out.wire)
            && e.out.wire <= e'.out.wire
            && (e.cut ==> e'.cut) && (e.waiting ==> e' == e)
            && (!e'.cut && !e'.waiting ==> e'.out.sent == e.out.sent + item.Bytes())
            && |e'.out.sent| <= |e.out.sent| + |item.Bytes()|
            && (!e.waiting && e'.waiting ==> |e'.out.sent| < |e.out.sent| + |item.Bytes()|)
            && (!e.cut && e'.cut ==> |e'.out.sent| < |e.out.sent| + |item.Bytes()|)
  {
    if !e.waiting {
      if item.payload.Data? {
        var chunks := SendDataShape(e, item.attempt, item.payload.offset, item.payload.data);
        PutChunksSent(e.out, item.attempt, item.payload.offset, chunks);
        PutChunksFlat(e.out, item.attempt, item.payload.offset, chunks);
        PutChunksFrames(e.out, item.attempt, item.payload.offset, chunks);
      } else {
        PutSent(e.out, item.attempt, item.payload);
      }
    }
  }

  // Over a whole run: `sent` is what the wire carries, and it is everything the
  // executor sent if no send gave up or is waiting, and less otherwise.
  lemma {:induction false} SendAllPublishes(e0: Emitter, items: seq<Frame>)
    requires Items(items)
    requires e0.out.sent == [] && e0.out.wire == [] && !e0.cut && !e0.waiting
    ensures var e := SendAll(e0, items);
            && e.out.sent == DataBytes(e.out.wire)
            && (!e.cut && !e.waiting ==> e.out.sent == DataBytes(items))
            && |e.out.sent| <= |DataBytes(items)|
            && (e.cut || e.waiting ==> |e.out.sent| < |DataBytes(items)|)
  {
    if items == [] {
    } else {
      var init, last := items[..|items| - 1], items[|items| - 1];
      SendAllPublishes(e0, init);
      SendPublishes(SendAll(e0, init), last);
    }
  }

  // ------------------------------------------------------ the stateful emitter

  class Publisher {
    const gate: ResponseCreditGate?
    var seqNo: U64
    var wire: seq<Frame>
    var signals: seq<Signal>
    var cut: bool
    var waiting: bool
    ghost var sent: seq<Byte>
    ghost var grants: seq<U64>

    ghost function State(): Emitter
      reads this, gate
    {
      Emitter(Outbound(seqNo, wire, sent), ResponseCreditGate.State(gate), signals, grants, cut, waiting)
    }

    constructor (gate: ResponseCreditGate?, signals: seq<Signal>)
      ensures this.gate == gate
      ensures State() == Emitter(Outbound(0, [], []), ResponseCreditGate.State(gate), signals, [], false, false)
    {
      this.gate := gate;
      this.signals := signals;
      seqNo, wire, cut, waiting := 0, [], false, false;
      grants, sent := [], [];
    }

    method PublishFrame(attempt: U32, payload: Payload)
      modifies `seqNo, `wire, `sent
      ensures State() == old(State()).(out := Put(old(State()).out, attempt, payload))
    {
      seqNo := Wrap64(seqNo + 1);
      var f := Frame(seqNo, attempt, payload);
      wire := wire + [f];
      sent := sent + f.Bytes();
    }

    method TakeAllowance(limit: nat) returns (outcome: Allowance)
      modifies `signals, `grants, gate
      ensures var t := TakeAvailable(old(ResponseCreditGate.State(gate)), limit, old(signals));
              State() == Charge(old(State()), t) && outcome == t.outcome
    {
      var taken, consumed, rest := ResponseCreditGate.Acquire(gate, limit, signals);
      signals := rest;
      grants := grants + consumed;
      return taken;
    }

    method PublishResponseProgress(item: Frame)
      requires item.Frame?
      modifies this, gate
      ensures State() == Send(old(State()), item)
      ensures !old(waiting) && !item.payload.Data? ==>
                wire == old(wire) + [Frame(Wrap64(old(seqNo) + 1), item.attempt, item.payload)]
    {
      if waiting {
        return;
      }
      if item.payload.Data? {
        PublishResponseData(item.attempt, item.payload.offset, item.payload.data);
        return;
      }
      PublishFrame(item.attempt, item.payload);
    }

    method PublishResponseData(attempt: U32, dataOffset: U64, data: seq<Byte>)
      modifies this, gate
      ensures State() == SendData(old(State()), attempt, dataOffset, data)
    {
      var offset := dataOffset;
      var remaining := data;
      ghost var goal := SendData(State(), attempt, offset, remaining);
      while |remaining| > 0
        invariant SendData(State(), attempt, offset, remaining) == goal
        decreases |remaining|
      {
        ghost var e := State();
        var went, n := PublishChunk(attempt, offset, remaining);
        NextRound(e, attempt, offset, remaining, went, State(), n);
        if !went {
          return;
        }
        offset := Wrap64(offset + n);
        remaining := remaining[n..];
      }
    }

    // The body of the loop: publishes the next chunk if the gate yields one.
    method PublishChunk(attempt: U32, offset: U64, remaining: seq<Byte>) returns (went: bool, n: nat)
      requires remaining != []
      modifies this, gate
      ensures IsRound(old(State()), attempt, offset, remaining, went, State(), n)
      ensures went ==> 1 <= n <= |remaining|
    {
      TakeConserves(ResponseCreditGate.State(gate), Min(|remaining|, FRAME_DATA_BYTES), signals);
      var outcome := TakeAllowance(Min(|remaining|, FRAME_DATA_BYTES));
      match outcome
      case Waiting =>
        waiting := true;
        return false, 0;
      case Refused =>
        cut := true;
        return false, 0;
      case Took(taken) =>
        PublishFrame(attempt, Data(offset, remaining[..taken]));
        return true, taken;
    }
  }
}
