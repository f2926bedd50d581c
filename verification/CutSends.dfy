// When the progress frames of a request make a valid stream, sends that gave up
// on an ended context included.

module CutSends {
  import opened Frames
  import opened StreamValidator
  import opened ResponseEmitter
  import opened RoundTrip
  import CreditGate

  // Send k publishes bytes although one before it has given up.
  ghost predicate ResumesAt(e0: Emitter, items: seq<Frame>, k: nat)
    requires Items(items) && k < |items|
  {
    var e := SendAll(e0, items[..k]);
    e.cut && |e.out.sent| < |SendAll(e0, items[..k + 1]).out.sent|
  }

  ghost predicate NoResume(e0: Emitter, items: seq<Frame>)
    requires Items(items)
  {
    forall k :: 0 <= k < |items| ==> !ResumesAt(e0, items, k)
  }

  lemma SendAllSnoc(e0: Emitter, items: seq<Frame>, k: nat)
    requires Items(items) && k < |items|
    ensures SendAll(e0, items[..k + 1]) == Send(SendAll(e0, items[..k]), items[k])
  {
    assert items[..k + 1][..k] == items[..k];
  }

  // The wire and the giving up only grow.
  lemma {:induction false} SendAllGrows(e0: Emitter, items: seq<Frame>, k: nat)
    requires Items(items) && k <= |items|
    requires e0.out.sent == [] && e0.out.wire == [] && !e0.cut && !e0.waiting
    ensures SendAll(e0, items[..k]).out.wire <= SendAll(e0, items).out.wire
    ensures SendAll(e0, items[..k]).cut ==> SendAll(e0, items).cut
    decreases |items| - k
  {
    if k == |items| {
      assert items[..k] == items;
    } else {
      SendAllSnoc(e0, items, k);
      SendAllPublishes(e0, items[..k]);
      SendPublishes(SendAll(e0, items[..k]), items[k]);
      SendAllGrows(e0, items, k + 1);
    }
  }

  // A send that publishes bytes starts with a chunk at its own offset.
  lemma FirstChunk(e: Emitter, item: Frame)
    requires item.Frame? && |e.out.sent| < |Send(e, item).out.sent|
    ensures var wire := Send(e, item).out.wire;
            && e.out.wire < wire && item.IsData()
            && wire[|e.out.wire|].IsData() && wire[|e.out.wire|].payload.offset == item.payload.offset
  {
    var offset, data := item.payload.offset, item.payload.data;
    var chunks := SendDataShape(e, item.attempt, offset, data);
    PutChunksFlat(e.out, item.attempt, offset, chunks);
    PutChunksFirst(e.out, item.attempt, offset, chunks);
  }

  lemma PutChunksFirst(out: Outbound, attempt: U32, offset: U64, chunks: seq<seq<Byte>>)
    requires GoodChunks(chunks) && chunks != []
    ensures var wire := PutChunks(out, attempt, offset, chunks).wire;
            out.wire < wire && wire[|out.wire|].IsData() && wire[|out.wire|].payload.offset == offset
  {
    var out1 := Put(out, attempt, Data(offset, chunks[0]));
    PutChunksFrames(out1, attempt, Wrap64(offset + |chunks[0]|), chunks[1..]);
    assert out1.wire[|out.wire|].payload.offset == offset;
  }

  // And one that publishes none leaves the wire as it is.
  lemma NoChunk(e: Emitter, item: Frame)
    requires item.IsData() && |Send(e, item).out.sent| <= |e.out.sent|
    ensures Send(e, item).out == e.out
  {
    if !e.waiting {
      var chunks := SendDataShape(e, item.attempt, item.payload.offset, item.payload.data);
      PutChunksFlat(e.out, item.attempt, item.payload.offset, chunks);
    }
  }

  // In a valid stream no send publishes after one that gave up: its first chunk
  // would leave the gap open.
  lemma ValidDoesNotResume(opts: Options, e0: Emitter, items: seq<Frame>, k: nat)
    requires Items(items) && Contiguous(items) && k < |items|
    requires e0.out == Outbound(0, [], []) && !e0.cut && !e0.waiting
    requires ValidStream(opts, SendAll(e0, items).out.wire)
    ensures !ResumesAt(e0, items, k)
  {
    if ResumesAt(e0, items, k) {
      var e, wire := SendAll(e0, items[..k]), SendAll(e0, items).out.wire;
      SendAllSnoc(e0, items, k);
      SendAllPublishes(e0, items[..k]);
      FirstChunk(e, items[k]);
      SendAllGrows(e0, items, k + 1);
      ItemLocated(items, k);
      ChunkFits(opts, wire, e.out.wire, items[k].payload.offset);
    }
  }

  lemma ChunkFits(opts: Options, wire: seq<Frame>, before: seq<Frame>, offset: U64)
    requires ValidStream(opts, wire) && before < wire
    requires wire[|before|].IsData() && wire[|before|].payload.offset == offset
    ensures offset == |DataBytes(before)|
  {
    assert Fits(opts, wire, |before|);
    assert wire[..|before|] == before;
  }

  lemma {:induction false} ProgressValid(opts: Options, e0: Emitter, items: seq<Frame>, k: nat)
    requires Items(items) && Contiguous(items) && Sendable(opts, items) && k <= |items|
    requires |DataBytes(items)| <= opts.initialCredit
    requires e0.out == Outbound(0, [], []) && !e0.cut && !e0.waiting
    requires |SendAll(e0, items[..k]).out.wire| <= MAX_U64 && NoResume(e0, items)
    ensures StreamSoFar(opts, SendAll(e0, items[..k]).out)
    ensures HasTerminal(SendAll(e0, items[..k]).out.wire) ==> k == |items|
  {
    if k == 0 {
    } else {
      var e, item := SendAll(e0, items[..k - 1]), items[k - 1];
      SendAllSnoc(e0, items, k - 1);
      SendAllPublishes(e0, items[..k - 1]);
      SendPublishes(e, item);
      ProgressValid(opts, e0, items, k - 1);
      assert !ResumesAt(e0, items, k - 1);
      if item.IsData() {
        ItemLocated(items, k - 1);
      }
      NextSendValid(opts, e, item);
    }
  }

  // One more send: it waits, or publishes nothing, or goes on where the bytes
  // published end.
  lemma NextSendValid(opts: Options, e: Emitter, item: Frame)
    requires StreamSoFar(opts, e.out) && !HasTerminal(e.out.wire)
    requires item.HasPayload() && item.attempt == opts.attempt && (item.IsBodyRef() ==> opts.allowBodyRef)
    requires item.IsData() ==> item.payload.offset + |item.payload.data| <= opts.initialCredit
    requires item.IsData() && !e.waiting ==>
               item.payload.offset == |e.out.sent| || |Send(e, item).out.sent| <= |e.out.sent|
    requires |Send(e, item).out.wire| <= MAX_U64
    ensures StreamSoFar(opts, Send(e, item).out)
    ensures HasTerminal(Send(e, item).out.wire) ==> item.IsTerminal()
  {
    if e.waiting {
    } else if item.IsData() && |Send(e, item).out.sent| <= |e.out.sent| {
      NoChunk(e, item);
    } else {
      SendValid(opts, e, item);
    }
  }

  // The progress frames are a valid stream exactly if they do not outnumber the
  // sequence numbers and no send published anything after one that gave up.
  lemma {:induction false} ProgressValidIff(
    opts: Options, initial: U64, signals: seq<CreditGate.Signal>, items: seq<Frame>, e: Emitter)
    requires Items(items) && Contiguous(items) && Sendable(opts, items)
    requires |DataBytes(items)| <= opts.initialCredit
    requires e == SendAll(NewEmitter(initial, signals), items)
    ensures ValidStream(opts, e.out.wire) <==> |e.out.wire| <= MAX_U64 && NoResume(NewEmitter(initial, signals), items)
  {
    var e0 := NewEmitter(initial, signals);
    if ValidStream(opts, e.out.wire) {
      ValidStreamBounds(opts, e.out.wire);
      forall k | 0 <= k < |items|
        ensures !ResumesAt(e0, items, k)
      {
        ValidDoesNotResume(opts, e0, items, k);
      }
    }
    if |e.out.wire| <= MAX_U64 && NoResume(e0, items) {
      assert items[..|items|] == items;
      ProgressValid(opts, e0, items, |items|);
    }
  }

  // With no send cut short nothing resumes.
  lemma UncutDoesNotResume(initial: U64, signals: seq<CreditGate.Signal>, items: seq<Frame>)
    requires Items(items) && !SendAll(NewEmitter(initial, signals), items).cut
    ensures NoResume(NewEmitter(initial, signals), items)
  {
    forall k | 0 <= k < |items|
      ensures !ResumesAt(NewEmitter(initial, signals), items, k)
    {
      SendAllGrows(NewEmitter(initial, signals), items, k);
    }
  }
}
