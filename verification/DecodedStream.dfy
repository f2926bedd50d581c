// The whole response stream of a decoded request: the progress frames the
// executor sent, then the frames it returned, rewritten if it was cancelled.
// The returned frames keep the numbers the executor gave them.

module DecodedStream {
  import opened Frames
  import opened StreamValidator
  import opened ResponseEmitter
  import opened RoundTrip
  import opened CutSends
  import Cancellation
  import CreditGate
  import Network

  // Result frame i continues a stream of n frames and `sent` bytes.
  ghost predicate ContinuesAt(opts: Options, n: nat, sent: nat, frames: seq<Frame>, i: nat)
    requires i < |frames|
  {
    var f := frames[i];
    && f.HasPayload()
    && f.streamSeq == n + i + 1
    && f.attempt == opts.attempt
    && (f.IsBodyRef() ==> opts.allowBodyRef)
    && (f.IsData() ==>
          && f.payload.offset == sent + |DataBytes(frames[..i])|
          && f.payload.offset + |f.payload.data| <= opts.initialCredit)
    && !HasTerminal(frames[..i])
  }

  ghost predicate Continues(opts: Options, n: nat, sent: nat, frames: seq<Frame>) {
    forall i :: 0 <= i < |frames| ==> ContinuesAt(opts, n, sent, frames, i)
  }

  lemma ContinuesSnoc(opts: Options, n: nat, sent: nat, frames: seq<Frame>, f: Frame)
    ensures Continues(opts, n, sent, frames + [f])
            <==> Continues(opts, n, sent, frames) && ContinuesAt(opts, n, sent, frames + [f], |frames|)
  {
    var longer := frames + [f];
    forall i | 0 <= i < |frames|
      ensures ContinuesAt(opts, n, sent, longer, i) <==> ContinuesAt(opts, n, sent, frames, i)
    {
      assert longer[..i] == frames[..i];
    }
  }

  lemma {:induction false} HasTerminalConcat(a: seq<Frame>, b: seq<Frame>)
    ensures HasTerminal(a + b) <==> HasTerminal(a) || HasTerminal(b)
  {
    if b == [] {
      assert a + b == a;
    } else {
      var init, last := b[..|b| - 1], b[|b| - 1];
      HasTerminalConcat(a, init);
      assert a + b == (a + init) + [last] && b == init + [last];
      HasTerminalSnoc(a + init, last);
      HasTerminalSnoc(init, last);
    }
  }

  // A frame extends two runs taken together exactly if the first is not
  // terminal and it continues that from within the second.
  lemma ExtendsBoth(opts: Options, a: seq<Frame>, b: seq<Frame>, f: Frame)
    ensures Extends(opts, a + b, f)
            <==> !HasTerminal(a) && ContinuesAt(opts, |a|, |DataBytes(a)|, b + [f], |b|)
  {
    DataBytesConcat(a, b);
    HasTerminalConcat(a, b);
    assert (b + [f])[..|b|] == b;
  }

  lemma {:induction false} ConcatValid(opts: Options, a: seq<Frame>, b: seq<Frame>)
    requires ValidStream(opts, a)
    ensures ValidStream(opts, a + b)
            <==> (b == [] || !HasTerminal(a)) && Continues(opts, |a|, |DataBytes(a)|, b)
  {
    if b == [] {
      assert a + b == a;
    } else {
      var init, last := b[..|b| - 1], b[|b| - 1];
      ConcatValid(opts, a, init);
      assert a + b == (a + init) + [last] && b == init + [last];
      ValidStreamSnoc(opts, a + init, last);
      ExtendsBoth(opts, a, init, last);
      ContinuesSnoc(opts, |a|, |DataBytes(a)|, init, last);
    }
  }

  lemma ConcatInvalid(opts: Options, a: seq<Frame>, b: seq<Frame>)
    requires ValidStream(opts, a + b)
    ensures ValidStream(opts, a)
  {
    ValidStreamPrefix(opts, a + b, |a|);
    assert (a + b)[..|a|] == a;
  }

  // What is published of the executor's result.
  function Result(frames: seq<Frame>, canceled: bool, reason: string): seq<Frame> {
    if canceled then Cancellation.Rewrite(frames, reason) else frames
  }

  // When Control accepts the whole stream: exactly if the progress frames are a
  // valid stream and the result, as published, continues it. For the executor
  // that means: number the returned frames on from the number of frames
  // published, which depends on how its sends were cut, and end with the only
  // terminal frame.
  lemma WholeStreamAccepted(opts: Options, t0: nat, e: Emitter, result: seq<Frame>, arrivals: seq<Network.Arrival>)
    requires Network.ArrivedFrames(arrivals) == e.out.wire + result
    ensures Network.Feed(Fresh(opts, t0), arrivals).1 == e.out.wire + result
            <==> && ValidStream(opts, e.out.wire)
                 && (result == [] || !HasTerminal(e.out.wire))
                 && Continues(opts, |e.out.wire|, |DataBytes(e.out.wire)|, result)
  {
    Network.InOrderAccepted(opts, t0, arrivals);
    if ValidStream(opts, e.out.wire + result) {
      ConcatInvalid(opts, e.out.wire, result);
    }
    if ValidStream(opts, e.out.wire) {
      ConcatValid(opts, e.out.wire, result);
    }
  }

  // The result continues the frames published, and there are numbers for them.
  ghost predicate Follows(opts: Options, wire: seq<Frame>, result: seq<Frame>) {
    && |wire| <= MAX_U64
    && (result == [] || !HasTerminal(wire))
    && Continues(opts, |wire|, |DataBytes(wire)|, result)
  }

  // For items an executor may send that is a condition on its sends and its
  // result: no send publishes after one that gave up on an ended context, and
  // the result continues the frames published. If none gave up or waits, those
  // carry all it sent.
  lemma {:induction false} DecodedAccepted(
    opts: Options, t0: nat, initial: U64, signals: seq<CreditGate.Signal>, items: seq<Frame>, e: Emitter,
    result: seq<Frame>, arrivals: seq<Network.Arrival>)
    requires Items(items) && Contiguous(items) && Sendable(opts, items)
    requires |DataBytes(items)| <= opts.initialCredit
    requires e == SendAll(NewEmitter(initial, signals), items)
    requires Network.ArrivedFrames(arrivals) == e.out.wire + result
    ensures Network.Feed(Fresh(opts, t0), arrivals).1 == e.out.wire + result
            <==> NoResume(NewEmitter(initial, signals), items) && Follows(opts, e.out.wire, result)
    ensures !e.cut && !e.waiting ==>
              NoResume(NewEmitter(initial, signals), items) && DataBytes(e.out.wire) == DataBytes(items)
  {
    WholeStreamAccepted(opts, t0, e, result, arrivals);
    ProgressValidIff(opts, initial, signals, items, e);
    SendAllPublishes(NewEmitter(initial, signals), items);
    if !e.cut {
      UncutDoesNotResume(initial, signals, items);
    }
  }

  // A cancellation does not spoil it: if the result as returned continues the
  // progress frames, so does the result as published, and the stream is closed.
  lemma CancelledAccepted(opts: Options, wire: seq<Frame>, frames: seq<Frame>, reason: string)
    requires ValidStream(opts, wire) && !HasTerminal(wire) && frames != []
    requires Continues(opts, |wire|, |DataBytes(wire)|, frames)
    ensures Continues(opts, |wire|, |DataBytes(wire)|, Result(frames, true, reason))
    ensures HasTerminal(wire + Result(frames, true, reason))
  {
    ConcatValid(opts, wire, frames);
    Cancellation.RewriteContinues(opts, wire, frames, reason);
    ConcatValid(opts, wire, Result(frames, true, reason));
  }
}
