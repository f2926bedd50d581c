// The response emitter against the stream validator: what one half publishes,
// the other half reassembles.

module RoundTrip {
  import opened Frames
  import opened StreamValidator
  import opened ResponseEmitter
  import CreditGate
  import Network

  // The executor's data items follow one another without gap or overlap.
  ghost predicate Contiguous(items: seq<Frame>) {
    && (forall i :: 0 <= i < |items| ==> InPlace(items, i))
    && |DataBytes(items)| <= MAX_U64
  }

  ghost predicate InPlace(items: seq<Frame>, i: nat)
    requires i < |items|
  {
    items[i].IsData() ==> items[i].payload.offset == |DataBytes(items[..i])|
  }

  lemma MiddleOf(before: seq<Byte>, middle: seq<Byte>, all: seq<Byte>)
    requires before + middle <= all
    ensures |before| + |middle| <= |all| && all[|before|..|before| + |middle|] == middle
  {
    assert all[..|before + middle|] == before + middle;
  }

  lemma ItemLocated(items: seq<Frame>, i: nat)
    requires Contiguous(items) && i < |items| && items[i].IsData()
    ensures items[i].payload.offset == |DataBytes(items[..i])|
    ensures LiesAt(DataBytes(items), items[i].payload.offset, items[i].payload.data)
  {
    assert InPlace(items, i);
    DataBytesThrough(items, i);
    MiddleOf(DataBytes(items[..i]), items[i].payload.data, DataBytes(items));
  }

  ghost predicate LiesAt(all: seq<Byte>, offset: nat, part: seq<Byte>) {
    offset + |part| <= |all| && all[offset..offset + |part|] == part
  }

  lemma LiesAtSplit(all: seq<Byte>, offset: nat, head: seq<Byte>, tail: seq<Byte>)
    requires LiesAt(all, offset, head + tail)
    ensures LiesAt(all, offset, head) && LiesAt(all, offset + |head|, tail)
  {
    var part := head + tail;
    assert part[..|head|] == head && part[|head|..] == tail;
  }

  // A data frame carries the executor's bytes at the offset it names.
  ghost predicate Faithful(all: seq<Byte>, f: Frame) {
    f.IsData() ==> LiesAt(all, f.payload.offset, f.payload.data)
  }

  ghost predicate FaithfulWire(all: seq<Byte>, out: Outbound) {
    && (forall i :: 0 <= i < |out.wire| ==> Faithful(all, out.wire[i]))
    && (|out.wire| <= MAX_U64 ==> out.seqNo == |out.wire| && Network.Numbered(out.wire))
  }

  lemma PutFaithful(all: seq<Byte>, out: Outbound, attempt: U32, payload: Payload)
    requires FaithfulWire(all, out)
    requires Faithful(all, Frame(0, attempt, payload))
    ensures FaithfulWire(all, Put(out, attempt, payload))
  {
  }

  lemma {:induction false} PutChunksFaithful(all: seq<Byte>, out: Outbound, attempt: U32, offset: U64, chunks: seq<seq<Byte>>)
    requires FaithfulWire(all, out) && |all| <= MAX_U64
    requires LiesAt(all, offset, Flat(chunks))
    ensures FaithfulWire(all, PutChunks(out, attempt, offset, chunks))
    decreases |chunks|
  {
    if chunks == [] {
    } else {
      LiesAtSplit(all, offset, chunks[0], Flat(chunks[1..]));
      PutFaithful(all, out, attempt, Data(offset, chunks[0]));
      PutChunksFaithful(all, Put(out, attempt, Data(offset, chunks[0])), attempt, offset + |chunks[0]|, chunks[1..]);
    }
  }

  lemma SendFaithful(all: seq<Byte>, e: Emitter, item: Frame)
    requires item.Frame? && |all| <= MAX_U64
    requires FaithfulWire(all, e.out) && Faithful(all, item)
    ensures FaithfulWire(all, Send(e, item).out)
  {
    if !e.waiting {
      if item.payload.Data? {
        var data := item.payload.data;
        var chunks := SendDataShape(e, item.attempt, item.payload.offset, data);
        LiesAtPrefix(all, item.payload.offset, data, Flat(chunks));
        PutChunksFaithful(all, e.out, item.attempt, item.payload.offset, chunks);
      } else {
        PutFaithful(all, e.out, item.attempt, item.payload);
      }
    }
  }

  lemma LiesAtPrefix(all: seq<Byte>, offset: nat, part: seq<Byte>, prefix: seq<Byte>)
    requires LiesAt(all, offset, part) && prefix <= part
    ensures LiesAt(all, offset, prefix)
  {
    assert prefix == part[..|prefix|];
  }

  lemma {:induction false} SendAllFaithful(e0: Emitter, items: seq<Frame>, k: nat)
    requires Items(items) && Contiguous(items) && k <= |items|
    requires e0.out.wire == [] && e0.out.seqNo == 0
    ensures FaithfulWire(DataBytes(items), SendAll(e0, items[..k]).out)
  {
    if k == 0 {
    } else {
      SendAllFaithful(e0, items, k - 1);
      assert items[..k][..k - 1] == items[..k - 1];
      if items[k - 1].IsData() {
        ItemLocated(items, k - 1);
      }
      SendFaithful(DataBytes(items), SendAll(e0, items[..k - 1]), items[k - 1]);
    }
  }

  // In a valid stream of faithful frames every frame continues the one before.
  lemma {:induction false} ValidFaithfulIsPrefix(opts: Options, all: seq<Byte>, frames: seq<Frame>)
    requires ValidStream(opts, frames)
    requires forall i :: 0 <= i < |frames| ==> Faithful(all, frames[i])
    ensures DataBytes(frames) <= all
  {
    if frames == [] {
    } else {
      var n := |frames| - 1;
      ValidStreamPrefix(opts, frames, n);
      ValidFaithfulIsPrefix(opts, all, frames[..n]);
      assert Fits(opts, frames, n);
      assert Faithful(all, frames[n]);
    }
  }

  lemma {:induction false} SubsequenceFrom(xs: seq<Frame>, ys: seq<Frame>)
    requires Network.Subsequence(xs, ys)
    ensures forall i :: 0 <= i < |xs| ==> xs[i] in ys
    decreases |ys|
  {
    if xs == [] {
    } else {
      var xs', ys' := xs[..|xs| - 1], ys[..|ys| - 1];
      if Network.Subsequence(xs, ys') {
        SubsequenceFrom(xs, ys');
      } else {
        SubsequenceFrom(xs', ys');
      }
    }
  }

  // An accepted frame is no junk, so the sender published it.
  lemma AcceptedWasSent(opts: Options, t0: nat, wire: seq<Frame>, arrivals: seq<Network.Arrival>, i: nat)
    requires Network.DrawnFrom(opts, wire, arrivals)
    requires i < |Network.Feed(Fresh(opts, t0), arrivals).1|
    ensures Network.Feed(Fresh(opts, t0), arrivals).1[i] in wire
  {
    var accepted := Network.Feed(Fresh(opts, t0), arrivals).1;
    Network.FeedTracks(opts, t0, arrivals);
    SubsequenceFrom(accepted, Network.ArrivedFrames(arrivals));
    assert Fits(opts, accepted, i);
    assert accepted[i] in Network.ArrivedFrames(arrivals);
  }

  // Emitter and validator undo each other, whatever goes wrong on the way. For
  // any items with contiguous offsets, any credit and any cancellation, and any
  // network that drops, duplicates and reorders the published frames, what a
  // fresh validator accepts delivers a prefix of the executor's bytes, even if
  // further items were sent after one that was cut short. It is also a prefix
  // of the published frames unless those outnumber the sequence numbers.
  lemma {:induction false} DeliveredIsPrefix(
    opts: Options, t0: nat, initial: U64, signals: seq<CreditGate.Signal>, items: seq<Frame>, e: Emitter,
    arrivals: seq<Network.Arrival>)
    requires Items(items) && Contiguous(items)
    requires e == SendAll(NewEmitter(initial, signals), items)
    requires Network.DrawnFrom(opts, e.out.wire, arrivals)
    ensures var accepted := Network.Feed(Fresh(opts, t0), arrivals).1;
            && DataBytes(accepted) <= DataBytes(items)
            && (|e.out.wire| <= MAX_U64 ==> accepted <= e.out.wire)
  {
    assert items[..|items|] == items;
    SendAllFaithful(NewEmitter(initial, signals), items, |items|);
    Network.FeedTracks(opts, t0, arrivals);
    var accepted := Network.Feed(Fresh(opts, t0), arrivals).1;
    forall i | 0 <= i < |accepted|
      ensures Faithful(DataBytes(items), accepted[i])
    {
      AcceptedWasSent(opts, t0, e.out.wire, arrivals, i);
    }
    ValidFaithfulIsPrefix(opts, DataBytes(items), accepted);
    if |e.out.wire| <= MAX_U64 {
      Network.AcceptedIsPrefix(opts, t0, e.out.wire, arrivals);
    }
  }

  // Items that a stream with these options can hold, whatever their numbers.
  ghost predicate Sendable(opts: Options, items: seq<Frame>) {
    forall i :: 0 <= i < |items| ==>
      && items[i].HasPayload()
      && items[i].attempt == opts.attempt
      && (items[i].IsBodyRef() ==> opts.allowBodyRef)
      && (items[i].IsTerminal() ==> i == |items| - 1)
  }

  // The wire is a valid stream and the emitter's counters agree with it.
  ghost predicate StreamSoFar(opts: Options, out: Outbound) {
    ValidStream(opts, out.wire) && out.seqNo == |out.wire| && out.sent == DataBytes(out.wire)
  }

  lemma PutValid(opts: Options, out: Outbound, payload: Payload)
    requires StreamSoFar(opts, out) && !HasTerminal(out.wire) && |out.wire| < MAX_U64
    requires !payload.NoPayload? && (payload.BodyRef? ==> opts.allowBodyRef)
    requires payload.Data? ==>
               payload.offset == |out.sent| && payload.offset + |payload.data| <= opts.initialCredit
    ensures var out' := Put(out, opts.attempt, payload);
            && StreamSoFar(opts, out')
            && (HasTerminal(out'.wire) <==> Frame(0, opts.attempt, payload).IsTerminal())
  {
    var f := Frame(out.seqNo + 1, opts.attempt, payload);
    assert Extends(opts, out.wire, f);
    FrameContinues(opts, out.wire, f);
    assert Put(out, opts.attempt, payload).wire == out.wire + [f];
  }

  lemma FrameContinues(opts: Options, wire: seq<Frame>, f: Frame)
    requires ValidStream(opts, wire) && Extends(opts, wire, f)
    ensures ValidStream(opts, wire + [f])
    ensures HasTerminal(wire + [f]) <==> f.IsTerminal()
    ensures DataBytes(wire + [f]) == DataBytes(wire) + f.Bytes()
  {
    ValidStreamSnoc(opts, wire, f);
    HasTerminalSnoc(wire, f);
    DataBytesSnoc(wire, f);
  }

  // A stream with room for `more` bytes.
  ghost predicate OpenStream(opts: Options, out: Outbound, offset: nat, more: nat) {
    && StreamSoFar(opts, out) && !HasTerminal(out.wire)
    && offset == |out.sent| && offset + more <= opts.initialCredit
  }

  lemma PutChunkValid(opts: Options, out: Outbound, offset: U64, chunk: seq<Byte>, more: nat)
    requires OpenStream(opts, out, offset, |chunk| + more) && |out.wire| < MAX_U64
    ensures var out' := Put(out, opts.attempt, Data(offset, chunk));
            OpenStream(opts, out', offset + |chunk|, more) && |out'.wire| == |out.wire| + 1
  {
    PutValid(opts, out, Data(offset, chunk));
  }

  lemma {:induction false} PutChunksValid(opts: Options, out: Outbound, offset: U64, chunks: seq<seq<Byte>>)
    requires OpenStream(opts, out, offset, |Flat(chunks)|)
    requires |out.wire| + |chunks| <= MAX_U64
    ensures var out' := PutChunks(out, opts.attempt, offset, chunks);
            StreamSoFar(opts, out') && !HasTerminal(out'.wire)
    decreases |chunks|
  {
    if chunks == [] {
    } else {
      var rest := chunks[1..];
      PutChunkValid(opts, out, offset, chunks[0], |Flat(rest)|);
      PutChunksValid(opts, Put(out, opts.attempt, Data(offset, chunks[0])), offset + |chunks[0]|, rest);
    }
  }

  lemma SendValid(opts: Options, e: Emitter, item: Frame)
    requires StreamSoFar(opts, e.out) && !HasTerminal(e.out.wire) && !e.waiting
    requires item.HasPayload() && item.attempt == opts.attempt && (item.IsBodyRef() ==> opts.allowBodyRef)
    requires item.IsData() ==>
               item.payload.offset == |e.out.sent| && item.payload.offset + |item.payload.data| <= opts.initialCredit
    requires |Send(e, item).out.wire| <= MAX_U64
    ensures StreamSoFar(opts, Send(e, item).out)
    ensures HasTerminal(Send(e, item).out.wire) <==> item.IsTerminal()
  {
    if item.payload.Data? {
      var chunks := SendDataShape(e, item.attempt, item.payload.offset, item.payload.data);
      PutChunksFrames(e.out, item.attempt, item.payload.offset, chunks);
      PutChunksValid(opts, e.out, item.payload.offset, chunks);
    } else {
      PutValid(opts, e.out, item.payload);
    }
  }

  lemma {:induction false} SendAllValid(opts: Options, e0: Emitter, items: seq<Frame>, k: nat)
    requires Items(items) && Contiguous(items) && Sendable(opts, items)
    requires |DataBytes(items)| <= opts.initialCredit
    requires e0.out == Outbound(0, [], []) && !e0.cut && !e0.waiting
    requires k <= |items|
    requires var e := SendAll(e0, items[..k]);
             !e.cut && !e.waiting && |e.out.wire| <= MAX_U64
    ensures var e := SendAll(e0, items[..k]);
            StreamSoFar(opts, e.out) && (HasTerminal(e.out.wire) ==> k == |items|)
  {
    if k == 0 {
    } else {
      assert items[..k][..k - 1] == items[..k - 1];
      var e, item := SendAll(e0, items[..k - 1]), items[k - 1];
      SendAllPublishes(e0, items[..k - 1]);
      SendPublishes(e, item);
      SendAllValid(opts, e0, items, k - 1);
      if item.IsData() {
        ItemLocated(items, k - 1);
      }
      SendValid(opts, e, item);
    }
  }

  // ------------------------------------------------ what a cut send leaves out

  predicate Covers(f: Frame, p: nat) {
    f.IsData() && f.payload.offset <= p < f.payload.offset + |f.payload.data|
  }

  // The byte at position p of the executor's data is in none of the frames.
  ghost predicate Uncovered(wire: seq<Frame>, p: nat) {
    forall i :: 0 <= i < |wire| ==> !Covers(wire[i], p)
  }

  predicate Placed(f: Frame, from: nat, to: nat) {
    f.IsData() ==> from <= f.payload.offset && f.payload.offset + |f.payload.data| <= to
  }

  ghost predicate Below(wire: seq<Frame>, bound: nat) {
    forall i :: 0 <= i < |wire| ==> Placed(wire[i], 0, bound)
  }

  // The frames behind `before` lie between two positions.
  ghost predicate Between(before: seq<Frame>, wire: seq<Frame>, from: nat, to: nat) {
    before <= wire && forall i :: |before| <= i < |wire| ==> Placed(wire[i], from, to)
  }

  lemma {:induction false} PutChunksPlaced(out: Outbound, attempt: U32, offset: U64, chunks: seq<seq<Byte>>)
    requires offset + |Flat(chunks)| <= MAX_U64
    ensures Between(out.wire, PutChunks(out, attempt, offset, chunks).wire, offset, offset + |Flat(chunks)|)
    decreases |chunks|
  {
    if chunks == [] {
    } else {
      var out1 := Put(out, attempt, Data(offset, chunks[0]));
      PutChunksPlaced(out1, attempt, offset + |chunks[0]|, chunks[1..]);
      FirstPlaced(out, attempt, offset, chunks[0]);
      BetweenJoin(out.wire, out1.wire, PutChunks(out, attempt, offset, chunks).wire,
                  offset, offset + |chunks[0]|, offset + |Flat(chunks)|);
    }
  }

  lemma FirstPlaced(out: Outbound, attempt: U32, offset: U64, chunk: seq<Byte>)
    ensures Between(out.wire, Put(out, attempt, Data(offset, chunk)).wire, offset, offset + |chunk|)
  {
  }

  lemma BetweenJoin(a: seq<Frame>, b: seq<Frame>, c: seq<Frame>, from: nat, mid: nat, to: nat)
    requires from <= mid <= to && Between(a, b, from, mid) && Between(b, c, mid, to)
    ensures Between(a, c, from, to)
  {
    forall i | |a| <= i < |c|
      ensures Placed(c[i], from, to)
    {
      assert i < |b| ==> c[i] == b[i];
    }
  }

  // A send publishes between the end of the items before it and `reach`, which
  // falls short of its own end if it is the first to be cut short or to wait.
  lemma SendPlaced(e: Emitter, item: Frame, start: nat) returns (reach: nat)
    requires item.Frame? && (item.IsData() ==> item.payload.offset == start)
    requires start + |item.Bytes()| <= MAX_U64
    ensures start <= reach <= start + |item.Bytes()|
    ensures Between(e.out.wire, Send(e, item).out.wire, start, reach)
    ensures !e.cut && !e.waiting && (Send(e, item).cut || Send(e, item).waiting) ==> reach < start + |item.Bytes()|
  {
    reach := start;
    if !e.waiting && item.IsData() {
      var chunks := SendDataShape(e, item.attempt, start, item.payload.data);
      PutChunksPlaced(e.out, item.attempt, start, chunks);
      reach := start + |Flat(chunks)|;
    }
  }

  // After a send cut short or waiting, some byte sent is in no frame.
  lemma {:induction false} GapLeft(e0: Emitter, items: seq<Frame>, k: nat) returns (p: nat)
    requires Items(items) && Contiguous(items) && k <= |items|
    requires e0.out.wire == [] && !e0.cut && !e0.waiting
    ensures var e := SendAll(e0, items[..k]);
            && Below(e.out.wire, |DataBytes(items[..k])|)
            && (e.cut || e.waiting ==> p < |DataBytes(items[..k])| && Uncovered(e.out.wire, p))
  {
    p := 0;
    if k == 0 {
    } else {
      var q := GapLeft(e0, items, k - 1);
      assert items[..k][..k - 1] == items[..k - 1];
      var e, item, start := SendAll(e0, items[..k - 1]), items[k - 1], |DataBytes(items[..k - 1])|;
      DataBytesUpTo(items, k - 1);
      DataBytesMonotone(items, k);
      assert InPlace(items, k - 1);
      var reach := SendPlaced(e, item, start);
      p := if e.cut || e.waiting then q else reach;
      GapStep(e.out.wire, Send(e, item).out.wire, start, reach, start + |item.Bytes()|, p, e.cut || e.waiting);
    }
  }

  lemma GapStep(before: seq<Frame>, wire: seq<Frame>, start: nat, reach: nat, end: nat, p: nat, gap: bool)
    requires Below(before, start) && start <= reach <= end && Between(before, wire, start, reach)
    requires if gap then p < start && Uncovered(before, p) else p == reach
    ensures Below(wire, end) && Uncovered(wire, p)
  {
    forall i | 0 <= i < |wire|
      ensures Placed(wire[i], 0, end) && !Covers(wire[i], p)
    {
      assert i < |before| ==> wire[i] == before[i];
      assert i < |before| ==> Placed(before[i], 0, start);
    }
  }

  // A valid stream covers all it carries.
  lemma {:induction false} ValidCovers(opts: Options, frames: seq<Frame>, p: nat) returns (i: nat)
    requires ValidStream(opts, frames) && p < |DataBytes(frames)|
    ensures i < |frames| && Covers(frames[i], p)
  {
    var n := |frames| - 1;
    assert Fits(opts, frames, n);
    if p < |DataBytes(frames[..n])| {
      ValidStreamPrefix(opts, frames, n);
      i := ValidCovers(opts, frames[..n], p);
    } else {
      i := n;
    }
  }

  // What was not published is not delivered.
  lemma {:induction false} DeliveredLess(
    opts: Options, t0: nat, initial: U64, signals: seq<CreditGate.Signal>, items: seq<Frame>, e: Emitter,
    arrivals: seq<Network.Arrival>)
    requires Items(items) && Contiguous(items)
    requires e == SendAll(NewEmitter(initial, signals), items) && (e.cut || e.waiting)
    requires Network.DrawnFrom(opts, e.out.wire, arrivals)
    ensures |DataBytes(Network.Feed(Fresh(opts, t0), arrivals).1)| < |DataBytes(items)|
  {
    var accepted := Network.Feed(Fresh(opts, t0), arrivals).1;
    assert items[..|items|] == items;
    var p := GapLeft(NewEmitter(initial, signals), items, |items|);
    Network.FeedTracks(opts, t0, arrivals);
    if p < |DataBytes(accepted)| {
      var i := ValidCovers(opts, accepted, p);
      AcceptedWasSent(opts, t0, e.out.wire, arrivals, i);
    }
  }

  // And nothing is lost on the way: with credit for them, the published frames,
  // in order, are accepted in full and deliver every byte exactly if no send
  // was cut short or is waiting and there were sequence numbers for all.
  lemma {:induction false} DeliveredInFull(
    opts: Options, t0: nat, initial: U64, signals: seq<CreditGate.Signal>, items: seq<Frame>, e: Emitter,
    arrivals: seq<Network.Arrival>)
    requires Items(items) && Contiguous(items) && Sendable(opts, items)
    requires |DataBytes(items)| <= opts.initialCredit
    requires e == SendAll(NewEmitter(initial, signals), items)
    requires Network.ArrivedFrames(arrivals) == e.out.wire
    ensures var accepted := Network.Feed(Fresh(opts, t0), arrivals).1;
            accepted == e.out.wire && DataBytes(accepted) == DataBytes(items)
            <==> !e.cut && !e.waiting && |e.out.wire| <= MAX_U64
  {
    if |e.out.wire| > MAX_U64 {
      Network.FeedTracks(opts, t0, arrivals);
      ValidStreamBounds(opts, Network.Feed(Fresh(opts, t0), arrivals).1);
    } else if e.cut || e.waiting {
      ArrivedDrawnFrom(opts, e.out.wire, arrivals);
      DeliveredLess(opts, t0, initial, signals, items, e, arrivals);
    } else {
      assert items[..|items|] == items;
      SendAllValid(opts, NewEmitter(initial, signals), items, |items|);
      SendAllPublishes(NewEmitter(initial, signals), items);
      Network.InOrderAccepted(opts, t0, arrivals);
    }
  }

  lemma ArrivedDrawnFrom(opts: Options, source: seq<Frame>, arrivals: seq<Network.Arrival>)
    requires Network.ArrivedFrames(arrivals) == source
    ensures Network.DrawnFrom(opts, source, arrivals)
  {
    forall i | 0 <= i < |arrivals|
      ensures arrivals[i].frame in source
    {
      assert source[i] == arrivals[i].frame;
    }
  }
}
