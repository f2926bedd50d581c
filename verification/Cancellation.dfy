// egress/assignment.go: applyCancellation, which makes an executor's result
// end the stream as cancelled.

module Cancellation {
  import opened Frames
  import opened StreamValidator
  import opened Network

  function SeqOf(f: Frame): U64 {
    if f.Frame? then f.streamSeq else 0
  }

  function AttemptOf(f: Frame): U32 {
    if f.Frame? then f.attempt else 0
  }

  predicate IsCancelled(f: Frame) {
    f.Frame? && f.payload.Cancelled?
  }

  // A last frame other than End is replaced, in its place, by Cancelled.
  function Rewrite(frames: seq<Frame>, reason: string): seq<Frame> {
    if frames == [] || frames[|frames| - 1].IsEnd() then frames
    else
      var last := frames[|frames| - 1];
      frames[..|frames| - 1] + [Frame(SeqOf(last), AttemptOf(last), Cancelled(reason))]
  }

  method ApplyCancellation(frames: array<Frame>, reason: string)
    modifies frames
    ensures frames[..] == Rewrite(old(frames[..]), reason)
  {
    if frames.Length == 0 {
      return;
    }
    var last := frames[frames.Length - 1];
    if last.IsEnd() {
      return;
    }
    frames[frames.Length - 1] := Frame(SeqOf(last), AttemptOf(last), Cancelled(reason));
  }

  function At(frames: seq<Frame>, now: nat): (arrivals: seq<Arrival>)
    ensures ArrivedFrames(arrivals) == frames
  {
    var arrivals := seq(|frames|, i requires 0 <= i < |frames| => Arrival(frames[i], now));
    assert ArrivedFrames(arrivals) == frames;
    arrivals
  }

  // Length, numbers, attempts and every frame but the last are kept, and the
  // last is End or Cancelled.
  predicate ShapeKept(frames: seq<Frame>, out: seq<Frame>)
    requires frames != []
  {
    && |out| == |frames|
    && out[..|out| - 1] == frames[..|frames| - 1]
    && (out[|out| - 1].IsEnd() || IsCancelled(out[|out| - 1]))
    && (forall i :: 0 <= i < |out| ==> SeqOf(out[i]) == SeqOf(frames[i]) && AttemptOf(out[i]) == AttemptOf(frames[i]))
  }

  lemma RewriteShape(frames: seq<Frame>, reason: string)
    requires frames != []
    ensures ShapeKept(frames, Rewrite(frames, reason))
    ensures var last, out := frames[|frames| - 1], Rewrite(frames, reason);
            if last.Frame? && last.payload.End? then out[|out| - 1] == last
            else out[|out| - 1] ==
                 if last.Frame? then Frame(last.streamSeq, last.attempt, Cancelled(reason)) else Frame(0, 0, Cancelled(reason))
  {
  }

  // Whatever could continue a stream as its last frame can be replaced by a
  // Cancelled frame with the same number.
  lemma RewriteContinues(opts: Options, history: seq<Frame>, frames: seq<Frame>, reason: string)
    requires frames != [] && ValidStream(opts, history + frames)
    ensures ValidStream(opts, history + Rewrite(frames, reason))
    ensures HasTerminal(history + Rewrite(frames, reason))
  {
    RewriteShape(frames, reason);
    var out := Rewrite(frames, reason);
    var n := |frames| - 1;
    var before := history + frames[..n];
    assert history + frames == before + [frames[n]];
    assert history + out == before + [out[n]];
    ValidStreamSnoc(opts, before, frames[n]);
    ValidStreamSnoc(opts, before, out[n]);
    HasTerminalSnoc(before, out[n]);
  }

  lemma RewriteFeeds(v: Validator, opts: Options, history: seq<Frame>, frames: seq<Frame>, reason: string, now: nat)
    requires Tracks(v, opts, history)
    requires frames != [] && Feed(v, At(frames, now)).1 == frames
    ensures var out := Rewrite(frames, reason);
            Feed(v, At(out, now)).1 == out && HasTerminal(history + out)
  {
    InOrderAcceptedFrom(v, opts, history, At(frames, now));
    RewriteContinues(opts, history, frames, reason);
    InOrderAcceptedFrom(v, opts, history, At(Rewrite(frames, reason), now));
  }

  // The validator after a run of frames it accepts in full.
  lemma FedState(v: Validator, opts: Options, history: seq<Frame>, frames: seq<Frame>, now: nat)
    requires Tracks(v, opts, history) && Feed(v, At(frames, now)).1 == frames
    ensures var v' := Feed(v, At(frames, now)).0;
            && v'.terminal == HasTerminal(history + frames)
            && v'.expectedSeq == Wrap64(|history| + |frames| + 1)
  {
    FeedTracksFrom(v, opts, history, At(frames, now));
    assert |history + frames| == |history| + |frames|;
  }

  // The cancellation rewrite is safe. A nonempty result that a validator, in
  // any state it can reach, would accept in full is still accepted in full
  // after the rewrite; it keeps its length, numbers and attempts and every
  // frame but the last, ends in End or Cancelled, leaves the validator terminal
  // and expecting the same next number; and rewriting again changes nothing.
  lemma RewriteAccepted(v: Validator, opts: Options, history: seq<Frame>, frames: seq<Frame>, reason: string, now: nat)
    requires Tracks(v, opts, history)
    requires frames != [] && Feed(v, At(frames, now)).1 == frames
    ensures var out := Rewrite(frames, reason);
            var (v', accepted) := Feed(v, At(out, now));
            && accepted == out
            && ShapeKept(frames, out)
            && v'.terminal
            && v'.expectedSeq == Feed(v, At(frames, now)).0.expectedSeq
            && RewriteTwice(frames, reason)
  {
    RewriteShape(frames, reason);
    RewriteFeeds(v, opts, history, frames, reason, now);
    FedState(v, opts, history, frames, now);
    FedState(v, opts, history, Rewrite(frames, reason), now);
    RewriteOnce(frames, reason);
  }

  predicate RewriteTwice(frames: seq<Frame>, reason: string) {
    Rewrite(Rewrite(frames, reason), reason) == Rewrite(frames, reason)
  }

  lemma RewriteOnce(frames: seq<Frame>, reason: string)
    ensures RewriteTwice(frames, reason)
  {
    if frames == [] || frames[|frames| - 1].IsEnd() {
    } else {
      var out := Rewrite(frames, reason);
      assert out[..|out| - 1] == frames[..|frames| - 1];
      assert Rewrite(out, reason) == out[..|out| - 1] + [out[|out| - 1]];
    }
  }

  // After the rewrite of a result that is accepted in full, the stream is
  // closed exactly if the result had a frame to rewrite or the stream was closed
  // before: an executor that returns nothing leaves it open.
  lemma RewriteCloses(v: Validator, opts: Options, history: seq<Frame>, frames: seq<Frame>, reason: string, now: nat)
    requires Tracks(v, opts, history)
    requires Feed(v, At(frames, now)).1 == frames
    ensures Feed(v, At(Rewrite(frames, reason), now)).0.terminal <==> frames != [] || v.terminal
  {
    if frames == [] {
      assert At(Rewrite(frames, reason), now) == [];
    } else {
      RewriteAccepted(v, opts, history, frames, reason, now);
    }
  }
}
