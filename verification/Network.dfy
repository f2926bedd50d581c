// What a validator makes of a whole run of arrivals, for a network that may
// drop, duplicate and reorder frames.

module Network {
  import opened Frames
  import opened StreamValidator

  datatype Arrival = Arrival(frame: Frame, at: nat)

  function ArrivedFrames(arrivals: seq<Arrival>): (frames: seq<Frame>)
    ensures |frames| == |arrivals|
  {
    seq(|arrivals|, i requires 0 <= i < |arrivals| => arrivals[i].frame)
  }

  // The validator after a run of arrivals and the frames it accepted, in order.
  function Feed(v: Validator, arrivals: seq<Arrival>): (Validator, seq<Frame>) {
    if arrivals == [] then (v, [])
    else
      var (v', accepted) := Feed(v, arrivals[..|arrivals| - 1]);
      var last := arrivals[|arrivals| - 1];
      var (outcome, v'') := AcceptStep(v', last.frame, last.at);
      (v'', if outcome == Accepted then accepted + [last.frame] else accepted)
  }

  // `xs` occurs in `ys` in order, possibly with gaps.
  ghost predicate Subsequence(xs: seq<Frame>, ys: seq<Frame>) {
    if xs == [] then true
    else if ys == [] then false
    else
      var xs', x := xs[..|xs| - 1], xs[|xs| - 1];
      var ys', y := ys[..|ys| - 1], ys[|ys| - 1];
      Subsequence(xs, ys') || (x == y && Subsequence(xs', ys'))
  }

  lemma {:induction false} FeedTracksFrom(v: Validator, opts: Options, history: seq<Frame>, arrivals: seq<Arrival>)
    requires Tracks(v, opts, history)
    ensures var (v', accepted) := Feed(v, arrivals);
            Tracks(v', opts, history + accepted) && Subsequence(accepted, ArrivedFrames(arrivals))
  {
    if arrivals == [] {
      assert history + [] == history;
    } else {
      var init, last := arrivals[..|arrivals| - 1], arrivals[|arrivals| - 1];
      FeedTracksFrom(v, opts, history, init);
      var (v', accepted) := Feed(v, init);
      AcceptIffExtends(v', opts, history + accepted, last.frame, last.at);
      SeqAssoc(history, accepted, [last.frame]);
      ArrivedSnoc(arrivals);
      assert (accepted + [last.frame])[..|accepted|] == accepted;
    }
  }

  lemma FeedTracks(opts: Options, t0: nat, arrivals: seq<Arrival>)
    ensures var (v, accepted) := Feed(Fresh(opts, t0), arrivals);
            Tracks(v, opts, accepted) && Subsequence(accepted, ArrivedFrames(arrivals))
  {
    FreshTracks(opts, t0);
    FeedTracksFrom(Fresh(opts, t0), opts, [], arrivals);
    assert [] + Feed(Fresh(opts, t0), arrivals).1 == Feed(Fresh(opts, t0), arrivals).1;
  }

  lemma ArrivedSnoc(arrivals: seq<Arrival>)
    requires arrivals != []
    ensures var frames := ArrivedFrames(arrivals);
            && frames[..|frames| - 1] == ArrivedFrames(arrivals[..|arrivals| - 1])
            && frames[|frames| - 1] == arrivals[|arrivals| - 1].frame
  {
  }

  // Once a terminal frame is in, whatever arrives is refused and forgotten.
  lemma {:induction false} NothingAfterTerminal(v: Validator, arrivals: seq<Arrival>)
    requires v.terminal
    ensures Feed(v, arrivals) == (v, [])
  {
    if arrivals == [] {
    } else {
      var last := arrivals[|arrivals| - 1];
      NothingAfterTerminal(v, arrivals[..|arrivals| - 1]);
      TerminalIsFinal(v, last.frame, last.at);
    }
  }

  // Frames that no stream with these options can contain.
  predicate Junk(opts: Options, f: Frame) {
    !f.HasPayload() || f.streamSeq == 0 || f.attempt != opts.attempt
  }

  // Every arrival is one of the frames of `source`, or junk.
  ghost predicate DrawnFrom(opts: Options, source: seq<Frame>, arrivals: seq<Arrival>) {
    forall i :: 0 <= i < |arrivals| ==> arrivals[i].frame in source || Junk(opts, arrivals[i].frame)
  }

  // The frames carry the numbers 1, 2, 3, ... in order.
  ghost predicate Numbered(frames: seq<Frame>) {
    forall i :: 0 <= i < |frames| ==> frames[i].Frame? && frames[i].streamSeq == i + 1
  }

  lemma ValidStreamIsNumbered(opts: Options, frames: seq<Frame>)
    requires ValidStream(opts, frames)
    ensures Numbered(frames)
  {
    forall i | 0 <= i < |frames|
      ensures frames[i].Frame? && frames[i].streamSeq == i + 1
    {
      assert Fits(opts, frames, i);
    }
  }

  // However badly the network treats a numbered source, what is accepted is a
  // prefix of it.
  lemma {:induction false} AcceptedIsPrefix(opts: Options, t0: nat, source: seq<Frame>, arrivals: seq<Arrival>)
    requires Numbered(source)
    requires DrawnFrom(opts, source, arrivals)
    ensures Feed(Fresh(opts, t0), arrivals).1 <= source
  {
    if arrivals == [] {
    } else {
      var init, last := arrivals[..|arrivals| - 1], arrivals[|arrivals| - 1];
      AcceptedIsPrefix(opts, t0, source, init);
      FeedTracks(opts, t0, init);
      var (v, accepted) := Feed(Fresh(opts, t0), init);
      AcceptIffExtends(v, opts, accepted, last.frame, last.at);
      if AcceptStep(v, last.frame, last.at).0 == Accepted {
        ValidStreamSnoc(opts, accepted, last.frame);
        assert arrivals[|arrivals| - 1].frame in source;
        PrefixGrows(opts, source, accepted, last.frame);
      }
    }
  }

  lemma PrefixGrows(opts: Options, source: seq<Frame>, accepted: seq<Frame>, f: Frame)
    requires Numbered(source) && accepted <= source
    requires f in source && Extends(opts, accepted, f)
    ensures accepted + [f] <= source
  {
    var i :| 0 <= i < |source| && source[i] == f;
    assert i == |accepted|;
  }

  // The main result for an honest sender. Its stream `sent` may be dropped,
  // duplicated, reordered and mixed with junk; the validator accepts a prefix
  // of it, and for every k that prefix reaches k exactly when the first k
  // frames occur in order among the arrivals. So it is the longest such prefix.
  lemma HonestSender(opts: Options, t0: nat, sent: seq<Frame>, arrivals: seq<Arrival>)
    requires ValidStream(opts, sent)
    requires DrawnFrom(opts, sent, arrivals)
    ensures var accepted := Feed(Fresh(opts, t0), arrivals).1;
            && accepted <= sent
            && forall k :: 0 <= k <= |sent| ==>
                 (k <= |accepted| <==> Subsequence(sent[..k], ArrivedFrames(arrivals)))
  {
    ValidStreamIsNumbered(opts, sent);
    AcceptedIsPrefix(opts, t0, sent, arrivals);
    FeedTracks(opts, t0, arrivals);
    var accepted := Feed(Fresh(opts, t0), arrivals).1;
    forall k | 0 <= k <= |sent|
      ensures k <= |accepted| <==> Subsequence(sent[..k], ArrivedFrames(arrivals))
    {
      if k <= |accepted| {
        assert sent[..k] == accepted[..k];
        SubsequencePrefix(accepted, ArrivedFrames(arrivals), k);
      }
      if Subsequence(sent[..k], ArrivedFrames(arrivals)) {
        NothingMissed(opts, t0, sent, arrivals, k);
      }
    }
  }

  lemma {:induction false} SubsequencePrefix(xs: seq<Frame>, ys: seq<Frame>, k: nat)
    requires Subsequence(xs, ys) && k <= |xs|
    ensures Subsequence(xs[..k], ys)
    decreases |ys|
  {
    if 0 < k < |xs| {
      var xs', ys' := xs[..|xs| - 1], ys[..|ys| - 1];
      if Subsequence(xs, ys') {
        SubsequencePrefix(xs, ys', k);
      } else {
        assert xs'[..k] == xs[..k];
        SubsequencePrefix(xs', ys', k);
      }
    } else {
      assert k == |xs| ==> xs[..k] == xs;
    }
  }

  lemma {:induction false} NothingMissed(opts: Options, t0: nat, sent: seq<Frame>, arrivals: seq<Arrival>, k: nat)
    requires ValidStream(opts, sent)
    requires DrawnFrom(opts, sent, arrivals)
    requires k <= |sent|
    requires Subsequence(sent[..k], ArrivedFrames(arrivals))
    ensures k <= |Feed(Fresh(opts, t0), arrivals).1|
    decreases |arrivals|
  {
    if k == 0 {
      return;
    }
    var init, last := arrivals[..|arrivals| - 1], arrivals[|arrivals| - 1];
    ArrivedSnoc(arrivals);
    if Subsequence(sent[..k], ArrivedFrames(init)) {
      NothingMissed(opts, t0, sent, init, k);
    } else {
      assert sent[..k][..k - 1] == sent[..k - 1];
      NothingMissed(opts, t0, sent, init, k - 1);
      ValidStreamIsNumbered(opts, sent);
      AcceptedIsPrefix(opts, t0, sent, init);
      FeedTracks(opts, t0, init);
      var (v, accepted) := Feed(Fresh(opts, t0), init);
      if |accepted| == k - 1 {
        NextIsAccepted(opts, v, sent, accepted, last.frame, last.at);
      }
    }
  }

  lemma NextIsAccepted(opts: Options, v: Validator, sent: seq<Frame>, accepted: seq<Frame>, f: Frame, now: nat)
    requires ValidStream(opts, sent) && Tracks(v, opts, accepted)
    requires accepted < sent && f == sent[|accepted|]
    ensures AcceptStep(v, f, now).0 == Accepted
  {
    var k := |accepted|;
    assert accepted + [f] == sent[..k + 1];
    ValidStreamPrefix(opts, sent, k + 1);
    AcceptIffExtends(v, opts, accepted, f, now);
  }

  // One more arrival.
  lemma FeedSnoc(v: Validator, arrivals: seq<Arrival>)
    requires arrivals != []
    ensures var last := arrivals[|arrivals| - 1];
            var (v', accepted) := Feed(v, arrivals[..|arrivals| - 1]);
            Feed(v, arrivals).1
            == if AcceptStep(v', last.frame, last.at).0 == Accepted then accepted + [last.frame] else accepted
  {
  }

  lemma SnocEqual(a: seq<Frame>, b: seq<Frame>, f: Frame)
    ensures a + [f] == b + [f] <==> a == b
  {
    assert (a + [f])[..|a|] == a && (b + [f])[..|b|] == b;
  }

  // The last of a run of frames, once those before it were `accepted`: all of
  // `before` and this one are in exactly if they continue the stream.
  lemma LastInOrder(v: Validator, opts: Options, history: seq<Frame>, accepted: seq<Frame>, before: seq<Frame>, f: Frame, at: nat)
    requires Tracks(v, opts, history + accepted) && |accepted| <= |before|
    requires accepted == before <==> ValidStream(opts, history + before)
    ensures (if AcceptStep(v, f, at).0 == Accepted then accepted + [f] else accepted) == before + [f]
            <==> ValidStream(opts, (history + before) + [f])
  {
    ValidStreamSnoc(opts, history + before, f);
    SnocEqual(accepted, before, f);
    AcceptIffExtends(v, opts, history + accepted, f, at);
  }

  // Frames that arrive in order are accepted in full exactly when they continue
  // the stream accepted so far.
  lemma {:induction false} InOrderAcceptedFrom(v: Validator, opts: Options, history: seq<Frame>, arrivals: seq<Arrival>)
    requires Tracks(v, opts, history)
    ensures Feed(v, arrivals).1 == ArrivedFrames(arrivals)
            <==> ValidStream(opts, history + ArrivedFrames(arrivals))
  {
    if arrivals == [] {
      assert history + ArrivedFrames(arrivals) == history;
    } else {
      var init, last := arrivals[..|arrivals| - 1], arrivals[|arrivals| - 1];
      var before := ArrivedFrames(init);
      ArrivedSnoc(arrivals);
      assert ArrivedFrames(arrivals) == before + [last.frame];
      SeqAssoc(history, before, [last.frame]);
      InOrderAcceptedFrom(v, opts, history, init);
      FeedTracksFrom(v, opts, history, init);
      FeedLength(v, init);
      FeedSnoc(v, arrivals);
      LastInOrder(Feed(v, init).0, opts, history, Feed(v, init).1, before, last.frame, last.at);
    }
  }

  lemma {:induction false} FeedLength(v: Validator, arrivals: seq<Arrival>)
    ensures |Feed(v, arrivals).1| <= |arrivals|
  {
    if arrivals == [] {
    } else {
      FeedLength(v, arrivals[..|arrivals| - 1]);
    }
  }

  lemma InOrderAccepted(opts: Options, t0: nat, arrivals: seq<Arrival>)
    ensures Feed(Fresh(opts, t0), arrivals).1 == ArrivedFrames(arrivals)
            <==> ValidStream(opts, ArrivedFrames(arrivals))
  {
    FreshTracks(opts, t0);
    InOrderAcceptedFrom(Fresh(opts, t0), opts, [], arrivals);
    assert [] + ArrivedFrames(arrivals) == ArrivedFrames(arrivals);
  }
}
