// What the progress frames on the wire are: the items the executor sent, in
// order, each data item replaced by its chunks.

module ProgressFrames {
  import opened Frames
  import opened ResponseEmitter
  import CreditGate

  // Data frames of one attempt, of 1 to 32768 bytes each, every one at the
  // offset where the one before it ends.
  ghost predicate ChunksFrom(part: seq<Frame>, attempt: U32, offset: U64)
    decreases |part|
  {
    part != [] ==>
      && part[0].IsData() && part[0].attempt == attempt && part[0].payload.offset == offset
      && 1 <= |part[0].payload.data| <= 32768
      && ChunksFrom(part[1..], attempt, Wrap64(offset + |part[0].payload.data|))
  }

  // What an item becomes: a frame with its attempt and payload, or the chunks
  // of a prefix of its bytes.
  ghost predicate Becomes(item: Frame, part: seq<Frame>) {
    if item.IsData() then
      ChunksFrom(part, item.attempt, item.payload.offset) && DataBytes(part) <= item.payload.data
    else
      && item.Frame? && |part| == 1 && part[0].Frame?
      && part[0].attempt == item.attempt && part[0].payload == item.payload
  }

  function Join(parts: seq<seq<Frame>>): seq<Frame> {
    if parts == [] then [] else Join(parts[..|parts| - 1]) + parts[|parts| - 1]
  }

  // The frames at positions i are numbered i + 1.
  ghost predicate Numbers(wire: seq<Frame>) {
    forall i :: 0 <= i < |wire| ==> wire[i].Frame? && wire[i].streamSeq == Wrap64(i + 1)
  }

  ghost predicate OutNumbered(out: Outbound) {
    Numbers(out.wire) && out.seqNo == Wrap64(|out.wire|)
  }

  lemma PutNumbered(out: Outbound, attempt: U32, payload: Payload)
    requires OutNumbered(out)
    ensures OutNumbered(Put(out, attempt, payload))
  {
    WrapAdd(|out.wire|, 1);
  }

  lemma ChunksCons(f: Frame, rest: seq<Frame>, attempt: U32, offset: U64)
    requires f.IsData() && f.attempt == attempt && f.payload.offset == offset && 1 <= |f.payload.data| <= 32768
    requires ChunksFrom(rest, attempt, Wrap64(offset + |f.payload.data|))
    ensures ChunksFrom([f] + rest, attempt, offset) && DataBytes([f] + rest) == f.payload.data + DataBytes(rest)
  {
    assert ([f] + rest)[1..] == rest;
    DataBytesConcat([f], rest);
    OneFrame(f);
  }

  lemma {:induction false} PutChunksPart(out: Outbound, attempt: U32, offset: U64, chunks: seq<seq<Byte>>)
    returns (part: seq<Frame>)
    requires OutNumbered(out) && GoodChunks(chunks)
    ensures var out' := PutChunks(out, attempt, offset, chunks);
            OutNumbered(out') && out'.wire == out.wire + part
    ensures ChunksFrom(part, attempt, offset) && DataBytes(part) == Flat(chunks)
    decreases |chunks|
  {
    part := [];
    if chunks == [] {
      assert out.wire + [] == out.wire;
    } else {
      var out1 := Put(out, attempt, Data(offset, chunks[0]));
      var f := out1.wire[|out.wire|];
      PutNumbered(out, attempt, Data(offset, chunks[0]));
      var rest := PutChunksPart(out1, attempt, Wrap64(offset + |chunks[0]|), chunks[1..]);
      part := [f] + rest;
      ChunksCons(f, rest, attempt, offset);
      SeqAssoc(out.wire, [f], rest);
    }
  }

  lemma OneFrame(f: Frame)
    ensures DataBytes([f]) == f.Bytes()
  {
    DataBytesSnoc([], f);
    assert [] + [f] == [f] && [] + f.Bytes() == f.Bytes();
  }

  // One send adds what its item becomes, and all of it if it is not cut short
  // and does not wait.
  lemma SendPart(e: Emitter, item: Frame) returns (part: seq<Frame>)
    requires item.Frame? && OutNumbered(e.out) && !e.waiting
    ensures OutNumbered(Send(e, item).out) && Send(e, item).out.wire == e.out.wire + part
    ensures Becomes(item, part)
    ensures !Send(e, item).cut && !Send(e, item).waiting ==> DataBytes(part) == item.Bytes()
  {
    if item.IsData() {
      var chunks := SendDataShape(e, item.attempt, item.payload.offset, item.payload.data);
      part := PutChunksPart(e.out, item.attempt, item.payload.offset, chunks);
    } else {
      PutNumbered(e.out, item.attempt, item.payload);
      part := [Frame(Wrap64(e.out.seqNo + 1), item.attempt, item.payload)];
      OneFrame(part[0]);
    }
  }

  // Parts for the first k items, every one if the executor is not kept waiting.
  ghost predicate Parts(items: seq<Frame>, parts: seq<seq<Frame>>, waiting: bool) {
    && |parts| <= |items| && (!waiting ==> |parts| == |items|)
    && forall i :: 0 <= i < |parts| ==> Becomes(items[i], parts[i])
  }

  lemma PartsSnoc(items: seq<Frame>, parts: seq<seq<Frame>>, part: seq<Frame>, waiting: bool)
    requires items != [] && Parts(items[..|items| - 1], parts, false) && Becomes(items[|items| - 1], part)
    ensures Parts(items, parts + [part], waiting) && Join(parts + [part]) == Join(parts) + part
  {
    assert (parts + [part])[..|parts|] == parts;
  }

  lemma PartsKept(items: seq<Frame>, parts: seq<seq<Frame>>)
    requires items != [] && Parts(items[..|items| - 1], parts, true)
    ensures Parts(items, parts, true)
  {
  }

  // The wire is numbered 1, 2, 3, ... and is what the items become, in order;
  // only a send that waits for credit keeps later items back.
  lemma {:induction false} WireIsItems(e0: Emitter, items: seq<Frame>) returns (parts: seq<seq<Frame>>)
    requires Items(items) && e0.out == Outbound(0, [], []) && !e0.waiting
    ensures var e := SendAll(e0, items);
            OutNumbered(e.out) && Parts(items, parts, e.waiting) && Join(parts) == e.out.wire
  {
    parts := [];
    if items == [] {
    } else {
      var init, last := items[..|items| - 1], items[|items| - 1];
      parts := WireIsItems(e0, init);
      var e := SendAll(e0, init);
      if e.waiting {
        PartsKept(items, parts);
      } else {
        var part := SendPart(e, last);
        PartsSnoc(items, parts, part, Send(e, last).waiting);
        parts := parts + [part];
      }
    }
  }

  // The frames that carry no data, as (attempt, payload).
  function Heads(frames: seq<Frame>): seq<(U32, Payload)> {
    if frames == [] then []
    else
      var last := frames[|frames| - 1];
      Heads(frames[..|frames| - 1])
      + if last.Frame? && !last.payload.Data? then [(last.attempt, last.payload)] else []
  }

  lemma {:induction false} HeadsConcat(a: seq<Frame>, b: seq<Frame>)
    ensures Heads(a + b) == Heads(a) + Heads(b)
  {
    if b == [] {
      assert a + b == a;
    } else {
      var init, last := b[..|b| - 1], b[|b| - 1];
      HeadsConcat(a, init);
      assert (a + b)[..|a + b| - 1] == a + init;
      SeqAssoc(Heads(a), Heads(init), if last.Frame? && !last.payload.Data? then [(last.attempt, last.payload)] else []);
    }
  }

  lemma {:induction false} ChunksHaveNoHeads(part: seq<Frame>, attempt: U32, offset: U64)
    requires ChunksFrom(part, attempt, offset)
    ensures Heads(part) == []
    decreases |part|
  {
    if part == [] {
    } else {
      ChunksHaveNoHeads(part[1..], attempt, Wrap64(offset + |part[0].payload.data|));
      assert part == [part[0]] + part[1..];
      HeadsConcat([part[0]], part[1..]);
      assert [part[0]][..0] == [];
    }
  }

  lemma PartHeads(item: Frame, part: seq<Frame>)
    requires Becomes(item, part)
    ensures Heads(part) == Heads([item])
  {
    assert [item][..0] == [];
    if item.IsData() {
      ChunksHaveNoHeads(part, item.attempt, item.payload.offset);
    } else {
      assert part[..0] == [];
    }
  }

  lemma {:induction false} JoinHeads(items: seq<Frame>, parts: seq<seq<Frame>>)
    requires |parts| <= |items| && forall i :: 0 <= i < |parts| ==> Becomes(items[i], parts[i])
    ensures Heads(Join(parts)) == Heads(items[..|parts|])
  {
    if parts == [] {
    } else {
      var n := |parts| - 1;
      JoinHeads(items, parts[..n]);
      HeadsConcat(Join(parts[..n]), parts[n]);
      PartHeads(items[n], parts[n]);
      assert items[..n + 1] == items[..n] + [items[n]];
      HeadsConcat(items[..n], [items[n]]);
    }
  }

  lemma HeadsPrefix(frames: seq<Frame>, n: nat)
    requires n <= |frames|
    ensures Heads(frames[..n]) <= Heads(frames) && (n == |frames| ==> Heads(frames[..n]) == Heads(frames))
  {
    assert frames == frames[..n] + frames[n..];
    HeadsConcat(frames[..n], frames[n..]);
  }

  // Every frame that carries no data is published as it was sent, in order:
  // all of them unless a send waits for credit.
  lemma HeadsPublished(e0: Emitter, items: seq<Frame>)
    requires Items(items) && e0.out == Outbound(0, [], []) && !e0.waiting
    ensures var e := SendAll(e0, items);
            Heads(e.out.wire) <= Heads(items) && (!e.waiting ==> Heads(e.out.wire) == Heads(items))
  {
    var parts := WireIsItems(e0, items);
    JoinHeads(items, parts);
    HeadsPrefix(items, |parts|);
  }
}
