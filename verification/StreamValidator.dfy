// egress/stream.go: the per-request frame validator.
//
// ValidStream says what a well-formed stream is, by looking at the whole list
// of frames and at no validator. The validator's five counters are then shown
// to be a summary of the frames accepted so far, and its decision to be
// exactly "does this frame extend the stream".

module StreamValidator {
  import opened Frames

  datatype Outcome =
    | Accepted
    | Duplicate
    | AfterTerminal
    | SequenceGap
    | OffsetMismatch
    | CreditExhausted
    | AttemptMismatch
    | Invalid

  datatype Options = Options(attempt: U32, initialCredit: U64, idleTimeout: nat, allowBodyRef: bool)

  // ---------------------------------------------------------------- streams

  // `f` may follow the frames `before`.
  ghost predicate Extends(opts: Options, before: seq<Frame>, f: Frame) {
    && f.HasPayload()
    && f.streamSeq == |before| + 1
    && f.attempt == opts.attempt
    && (f.IsBodyRef() ==> opts.allowBodyRef)
    && (f.IsData() ==>
          && f.payload.offset == |DataBytes(before)|
          && |DataBytes(before)| + |f.payload.data| <= opts.initialCredit)
    && !HasTerminal(before)
  }

  // Numbered 1, 2, 3, ..., one attempt, contiguous offsets within the credit,
  // nothing after a terminal frame, body references only where allowed.
  ghost predicate ValidStream(opts: Options, frames: seq<Frame>) {
    forall i :: 0 <= i < |frames| ==> Fits(opts, frames, i)
  }

  // Frame i may follow the frames before it.
  ghost predicate Fits(opts: Options, frames: seq<Frame>, i: nat)
    requires i < |frames|
  {
    Extends(opts, frames[..i], frames[i])
  }

  lemma ValidStreamSnoc(opts: Options, frames: seq<Frame>, f: Frame)
    ensures ValidStream(opts, frames + [f]) <==> ValidStream(opts, frames) && Extends(opts, frames, f)
  {
    var longer := frames + [f];
    assert longer[..|frames|] == frames;
    assert Fits(opts, longer, |frames|) <==> Extends(opts, frames, f);
    forall i | 0 <= i < |frames|
      ensures Fits(opts, longer, i) <==> Fits(opts, frames, i)
    {
      assert longer[..i] == frames[..i];
    }
  }

  lemma ValidStreamPrefix(opts: Options, frames: seq<Frame>, k: nat)
    requires ValidStream(opts, frames) && k <= |frames|
    ensures ValidStream(opts, frames[..k])
  {
    forall i | 0 <= i < k
      ensures Fits(opts, frames[..k], i)
    {
      assert frames[..k][..i] == frames[..i];
      assert Fits(opts, frames, i);
    }
  }

  lemma {:induction false} ValidStreamBounds(opts: Options, frames: seq<Frame>)
    requires ValidStream(opts, frames)
    ensures |frames| <= MAX_U64
    ensures |DataBytes(frames)| <= opts.initialCredit
  {
    if frames == [] {
    } else {
      var n := |frames| - 1;
      ValidStreamPrefix(opts, frames, n);
      ValidStreamBounds(opts, frames[..n]);
      assert Fits(opts, frames, n);
    }
  }

  // -------------------------------------------------------------- validator

  datatype Validator = Validator(
    attempt: U32,
    expectedSeq: U64,
    offset: U64,
    credit: U64,
    terminal: bool,
    idleTimeout: nat,
    lastActivity: nat,
    allowBodyRef: bool)
  {
    predicate IdleExpired(now: nat) {
      idleTimeout > 0 && !terminal && now - lastActivity >= idleTimeout
    }
  }

  function Fresh(opts: Options, now: nat): Validator {
    Validator(opts.attempt, 1, 0, opts.initialCredit, false, opts.idleTimeout, now, opts.allowBodyRef)
  }

  function ShellOutcome(v: Validator, f: Frame): Outcome {
    if !f.HasPayload() then Invalid
    else if v.terminal then AfterTerminal
    else if f.streamSeq == 0 then Invalid
    else if f.attempt != v.attempt then AttemptMismatch
    else Accepted
  }

  function DataOutcome(v: Validator, f: Frame): Outcome {
    if !f.IsData() then Accepted
    else if f.payload.offset != v.offset then OffsetMismatch
    else if |f.payload.data| > v.credit then CreditExhausted
    else Accepted
  }

  function Decide(v: Validator, f: Frame): Outcome {
    var shell := ShellOutcome(v, f);
    if shell != Accepted then shell
    else if f.streamSeq < v.expectedSeq then Duplicate
    else if f.streamSeq > v.expectedSeq then SequenceGap
    else if f.IsBodyRef() && !v.allowBodyRef then Invalid
    else DataOutcome(v, f)
  }

  function Advance(v: Validator, f: Frame, now: nat): Validator
    requires |f.Bytes()| <= v.credit
  {
    v.(expectedSeq := Wrap64(v.expectedSeq + 1),
       offset := Wrap64(v.offset + |f.Bytes()|),
       credit := v.credit - |f.Bytes()|,
       lastActivity := now,
       terminal := v.terminal || f.IsTerminal())
  }

  // One call of `accept`: the outcome and the validator afterwards.
  function AcceptStep(v: Validator, f: Frame, now: nat): (Outcome, Validator) {
    var outcome := Decide(v, f);
    (outcome, if outcome == Accepted then Advance(v, f, now) else v)
  }

  // `v` is what a validator made with `opts` looks like after accepting exactly `history`.
  ghost predicate Tracks(v: Validator, opts: Options, history: seq<Frame>) {
    && ValidStream(opts, history)
    && v.attempt == opts.attempt
    && v.allowBodyRef == opts.allowBodyRef
    && v.idleTimeout == opts.idleTimeout
    && v.expectedSeq == Wrap64(|history| + 1)
    && v.offset == |DataBytes(history)|
    && v.offset + v.credit == opts.initialCredit
    && v.terminal == HasTerminal(history)
  }

  lemma FreshTracks(opts: Options, now: nat)
    ensures Tracks(Fresh(opts, now), opts, [])
  {
  }

  lemma DecideIffExtends(v: Validator, opts: Options, history: seq<Frame>, f: Frame)
    requires Tracks(v, opts, history)
    ensures Decide(v, f) == Accepted <==> Extends(opts, history, f)
  {
    ValidStreamBounds(opts, history);
  }

  lemma AdvanceTracks(v: Validator, opts: Options, history: seq<Frame>, f: Frame, now: nat)
    requires Tracks(v, opts, history)
    requires Extends(opts, history, f)
    ensures |f.Bytes()| <= v.credit
    ensures Tracks(Advance(v, f, now), opts, history + [f])
  {
    ValidStreamSnoc(opts, history, f);
    DataBytesSnoc(history, f);
    HasTerminalSnoc(history, f);
  }

  // The decision is exact: accepted precisely when the frame extends the
  // stream accepted so far, and a rejected frame leaves no trace. The offset
  // and credit counters always add up to the initial credit, so the uint64
  // addition never wraps; the sequence counter may wrap to 0, after which
  // nothing is accepted any more.
  lemma AcceptIffExtends(v: Validator, opts: Options, history: seq<Frame>, f: Frame, now: nat)
    requires Tracks(v, opts, history)
    ensures var (outcome, v') := AcceptStep(v, f, now);
            && (outcome == Accepted <==> ValidStream(opts, history + [f]))
            && (outcome == Accepted ==> Tracks(v', opts, history + [f]) && v'.lastActivity == now)
            && (outcome != Accepted ==> v' == v)
  {
    ValidStreamSnoc(opts, history, f);
    DecideIffExtends(v, opts, history, f);
    if Decide(v, f) == Accepted {
      AdvanceTracks(v, opts, history, f, now);
    }
  }

  // Once a terminal frame is in, nothing is ever accepted again.
  lemma TerminalIsFinal(v: Validator, f: Frame, now: nat)
    requires v.terminal
    ensures AcceptStep(v, f, now) == (if f.HasPayload() then AfterTerminal else Invalid, v)
  {
  }

  // A frame that was accepted before is never accepted again. The one history
  // for which the answer is not "duplicate" is the one whose length exhausts
  // the sequence numbers.
  lemma ReplayOutcome(v: Validator, opts: Options, history: seq<Frame>, f: Frame, now: nat)
    requires Tracks(v, opts, history)
    requires f in history
    ensures AcceptStep(v, f, now).1 == v
    ensures AcceptStep(v, f, now).0 ==
            if v.terminal then AfterTerminal else if |history| < MAX_U64 then Duplicate else SequenceGap
  {
    var i :| 0 <= i < |history| && history[i] == f;
    assert Fits(opts, history, i);
    ValidStreamBounds(opts, history);
  }

  // ---------------------------------------------------- what each outcome means

  // A frame of this stream, while the stream is open.
  ghost predicate Addressed(opts: Options, history: seq<Frame>, f: Frame) {
    f.HasPayload() && !HasTerminal(history) && f.streamSeq != 0 && f.attempt == opts.attempt
  }

  // It carries the number of a frame accepted before.
  ghost predicate Repeats(opts: Options, history: seq<Frame>, f: Frame) {
    Addressed(opts, history, f) && f.streamSeq <= |history| < MAX_U64
  }

  // It carries the next number.
  ghost predicate NextUp(opts: Options, history: seq<Frame>, f: Frame) {
    Addressed(opts, history, f) && f.streamSeq == |history| + 1
  }

  // Every outcome, from the frames accepted so far alone.
  lemma OutcomeMeans(v: Validator, opts: Options, history: seq<Frame>, f: Frame)
    requires Tracks(v, opts, history)
    ensures Decide(v, f) == Duplicate <==> Repeats(opts, history, f)
    ensures Decide(v, f) == SequenceGap <==>
              Addressed(opts, history, f) && !Repeats(opts, history, f) && !NextUp(opts, history, f)
    ensures Decide(v, f) == AfterTerminal <==> f.HasPayload() && HasTerminal(history)
    ensures Decide(v, f) == AttemptMismatch <==>
              f.HasPayload() && !HasTerminal(history) && f.streamSeq != 0 && f.attempt != opts.attempt
    ensures Decide(v, f) == OffsetMismatch <==>
              NextUp(opts, history, f) && f.IsData() && f.payload.offset != |DataBytes(history)|
    ensures Decide(v, f) == CreditExhausted <==>
              && NextUp(opts, history, f) && f.IsData() && f.payload.offset == |DataBytes(history)|
              && |DataBytes(history)| + |f.payload.data| > opts.initialCredit
    ensures Decide(v, f) == Invalid <==>
              || !f.HasPayload()
              || (!HasTerminal(history) && f.streamSeq == 0)
              || (NextUp(opts, history, f) && f.IsBodyRef() && !opts.allowBodyRef)
  {
    ValidStreamBounds(opts, history);
  }

  // The stateful validator. `history` records the frames accepted so far.
  class Checker {
    const attempt: U32
    const idleTimeout: nat
    const allowBodyRef: bool
    var expectedSeq: U64
    var offset: U64
    var credit: U64
    var terminal: bool
    var lastActivity: nat

    ghost const opts: Options
    ghost var history: seq<Frame>

    function State(): Validator
      reads this
    {
      Validator(attempt, expectedSeq, offset, credit, terminal, idleTimeout, lastActivity, allowBodyRef)
    }

    ghost predicate Valid()
      reads this
    {
      Tracks(State(), opts, history)
    }

    constructor (opts: Options, now: nat)
      ensures Valid() && history == [] && this.opts == opts
      ensures State() == Fresh(opts, now)
    {
      attempt := opts.attempt;
      expectedSeq := 1;
      offset := 0;
      credit := opts.initialCredit;
      terminal := false;
      idleTimeout := opts.idleTimeout;
      lastActivity := now;
      allowBodyRef := opts.allowBodyRef;
      this.opts := opts;
      history := [];
    }

    method Accept(f: Frame, now: nat) returns (outcome: Outcome)
      requires Valid()
      modifies this
      ensures Valid()
      ensures outcome == Accepted <==> ValidStream(opts, old(history) + [f])
      ensures history == if outcome == Accepted then old(history) + [f] else old(history)
      ensures outcome != Accepted ==> State() == old(State())
      ensures (outcome, State()) == AcceptStep(old(State()), f, now)
    {
      ghost var before := State();
      outcome := Judge(f, now);
      AcceptIffExtends(before, opts, history, f, now);
      if outcome == Accepted {
        history := history + [f];
      }
    }

    // The body of `accept`; `Accept` adds the record of what was accepted.
    method Judge(f: Frame, now: nat) returns (outcome: Outcome)
      modifies `expectedSeq, `offset, `credit, `terminal, `lastActivity
      ensures (outcome, State()) == AcceptStep(old(State()), f, now)
    {
      outcome := ValidateFrameShell(f);
      if outcome != Accepted {
        return;
      }
      if f.streamSeq < expectedSeq {
        return Duplicate;
      } else if f.streamSeq > expectedSeq {
        return SequenceGap;
      }
      if f.IsBodyRef() && !allowBodyRef {
        return Invalid;
      }
      outcome := AcceptData(f);
      if outcome != Accepted {
        return;
      }
      expectedSeq := Wrap64(expectedSeq + 1);
      lastActivity := now;
      if f.IsTerminal() {
        terminal := true;
      }
    }

    method ValidateFrameShell(f: Frame) returns (outcome: Outcome)
      ensures outcome == ShellOutcome(State(), f)
    {
      if f.NilFrame? || f.payload.NoPayload? {
        return Invalid;
      }
      if terminal {
        return AfterTerminal;
      }
      if f.streamSeq == 0 {
        return Invalid;
      }
      if f.attempt != attempt {
        return AttemptMismatch;
      }
      return Accepted;
    }

    method AcceptData(f: Frame) returns (outcome: Outcome)
      modifies `offset, `credit
      ensures outcome == DataOutcome(old(State()), f)
      ensures outcome == Accepted ==>
                && credit == old(credit) - |f.Bytes()|
                && offset == Wrap64(old(offset) + |f.Bytes()|)
      ensures outcome != Accepted ==> credit == old(credit) && offset == old(offset)
    {
      if !f.IsData() {
        return Accepted;
      }
      if f.payload.offset != offset {
        return OffsetMismatch;
      }
      var n := |f.payload.data|;
      if n > credit {
        return CreditExhausted;
      }
      credit := credit - n;
      offset := Wrap64(offset + n);
      return Accepted;
    }
  }
}
