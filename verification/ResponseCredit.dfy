// The response emitter against its credit: how many bytes it may publish, and
// into how many frames it may cut them.

module ResponseCredit {
  import opened Frames
  import opened CreditGate
  import opened ResponseEmitter

  // ---------------------------------------------------------- the credit ledger

  // Initial credit plus grants consumed is bytes published plus credit left.
  ghost predicate Settled(initial: U64, e: Emitter) {
    && (e.gate.Gate? <==> initial != 0)
    && (e.gate.Gate? ==> initial + Sum(e.grants) == |e.out.sent| + e.gate.credit)
    && (e.waiting ==> e.gate == Gate(0) && e.signals == [])
  }

  // The grants consumed and those still to come, in order.
  function AllGrants(e: Emitter): seq<U64> {
    e.grants + GrantsIn(e.signals)
  }

  // And no grant is lost or invented between `signals` and the gate.
  ghost predicate Ledger(initial: U64, signals: seq<Signal>, e: Emitter) {
    Settled(initial, e) && AllGrants(e) == GrantsIn(signals)
  }

  // What a round takes from the gate and the signals.
  lemma ChunkTakes(e: Emitter, attempt: U32, offset: U64, remaining: seq<Byte>)
    requires remaining != []
    ensures var t := TakeAvailable(e.gate, Min(|remaining|, FRAME_DATA_BYTES), e.signals);
            var r := SendChunk(e, attempt, offset, remaining);
            && r.emitter.gate == t.gate && r.emitter.signals == t.rest && r.emitter.grants == e.grants + t.grants
            && |r.emitter.out.sent| == |e.out.sent| + Amount(t.outcome)
            && |r.emitter.out.wire| == |e.out.wire| + (if t.outcome.Took? then 1 else 0)
            && r.emitter.waiting == (e.waiting || t.outcome.Waiting?)
            && (r.Went? <==> t.outcome.Took?) && (r.Went? ==> r.n == t.outcome.n)
  {
    TakeConserves(e.gate, Min(|remaining|, FRAME_DATA_BYTES), e.signals);
  }

  lemma ChunkSettled(initial: U64, e: Emitter, attempt: U32, offset: U64, remaining: seq<Byte>)
    requires Settled(initial, e) && !e.waiting && remaining != []
    ensures var r := SendChunk(e, attempt, offset, remaining);
            Settled(initial, r.emitter) && (r.Went? ==> !r.emitter.waiting)
  {
    var t := TakeAvailable(e.gate, Min(|remaining|, FRAME_DATA_BYTES), e.signals);
    ChunkTakes(e, attempt, offset, remaining);
    TakeConserves(e.gate, Min(|remaining|, FRAME_DATA_BYTES), e.signals);
    SumConcat(e.grants, t.grants);
  }

  lemma ChunkGrants(e: Emitter, attempt: U32, offset: U64, remaining: seq<Byte>)
    requires remaining != []
    ensures AllGrants(SendChunk(e, attempt, offset, remaining).emitter) == AllGrants(e)
  {
    var t := TakeAvailable(e.gate, Min(|remaining|, FRAME_DATA_BYTES), e.signals);
    ChunkTakes(e, attempt, offset, remaining);
    TakeConsumesInOrder(e.gate, Min(|remaining|, FRAME_DATA_BYTES), e.signals);
    SeqAssoc(e.grants, t.grants, GrantsIn(t.rest));
  }

  lemma {:induction false} SendDataSettled(initial: U64, e: Emitter, attempt: U32, offset: U64, remaining: seq<Byte>)
    requires Settled(initial, e) && !e.waiting
    ensures Settled(initial, SendData(e, attempt, offset, remaining))
    decreases |remaining|
  {
    if remaining == [] {
    } else {
      ChunkSettled(initial, e, attempt, offset, remaining);
      match SendChunk(e, attempt, offset, remaining)
      case Stopped(_) =>
      case Went(mid, n) => SendDataSettled(initial, mid, attempt, Wrap64(offset + n), remaining[n..]);
    }
  }

  lemma RoundGrants(e: Emitter, attempt: U32, offset: U64, remaining: seq<Byte>)
    returns (went: bool, mid: Emitter, n: nat)
    requires remaining != []
    ensures AllGrants(mid) == AllGrants(e)
    ensures !went ==> SendData(e, attempt, offset, remaining) == mid
    ensures went ==>
              && 1 <= n <= |remaining|
              && SendData(e, attempt, offset, remaining) == SendData(mid, attempt, Wrap64(offset + n), remaining[n..])
  {
    ChunkGrants(e, attempt, offset, remaining);
    var r := SendChunk(e, attempt, offset, remaining);
    went, mid, n := r.Went?, r.emitter, if r.Went? then r.n else 0;
    NextRound(e, attempt, offset, remaining, went, mid, n);
  }

  lemma {:induction false} SendDataGrants(e: Emitter, attempt: U32, offset: U64, remaining: seq<Byte>)
    ensures AllGrants(SendData(e, attempt, offset, remaining)) == AllGrants(e)
    decreases |remaining|
  {
    if remaining == [] {
    } else {
      var went, mid, n := RoundGrants(e, attempt, offset, remaining);
      if went {
        SendDataGrants(mid, attempt, Wrap64(offset + n), remaining[n..]);
      }
    }
  }

  lemma {:induction false} SendAllLedger(initial: U64, signals: seq<Signal>, items: seq<Frame>)
    requires Items(items)
    ensures Ledger(initial, signals, SendAll(NewEmitter(initial, signals), items))
  {
    if items == [] {
    } else {
      var last := items[|items| - 1];
      SendAllLedger(initial, signals, items[..|items| - 1]);
      var e := SendAll(NewEmitter(initial, signals), items[..|items| - 1]);
      if !e.waiting && last.payload.Data? {
        SendDataSettled(initial, e, last.attempt, last.payload.offset, last.payload.data);
        SendDataGrants(e, last.attempt, last.payload.offset, last.payload.data);
      }
    }
  }

  lemma LedgerAmount(initial: U64, signals: seq<Signal>, e: Emitter, total: nat)
    requires Ledger(initial, signals, e) && initial > 0
    requires !e.cut && !e.waiting ==> |e.out.sent| == total
    requires !e.cut && e.waiting ==> |e.out.sent| < total
    ensures |e.out.sent| <= initial + Sum(GrantsIn(signals))
    ensures !e.cut ==> |e.out.sent| == Min(total, initial + Sum(GrantsIn(signals)))
  {
    SumConcat(e.grants, GrantsIn(e.signals));
  }

  // The gate's promise over a whole run. For an initial credit above 0 and no
  // send that gave up, the bytes published are the smaller of what the executor
  // sent and all the credit there ever was: the initial credit plus every grant.
  lemma PublishedAmount(initial: U64, signals: seq<Signal>, items: seq<Frame>)
    requires Items(items) && initial > 0
    ensures var e := SendAll(NewEmitter(initial, signals), items);
            var published := |DataBytes(e.out.wire)|;
            && published <= initial + Sum(GrantsIn(signals))
            && (!e.cut ==> published == Min(|DataBytes(items)|, initial + Sum(GrantsIn(signals))))
  {
    SendAllLedger(initial, signals, items);
    SendAllPublishes(NewEmitter(initial, signals), items);
    LedgerAmount(initial, signals, SendAll(NewEmitter(initial, signals), items), |DataBytes(items)|);
  }

  // ------------------------------------------------------------ chunk counting

  function CeilDiv(n: nat): nat {
    (n + FRAME_DATA_BYTES - 1) / FRAME_DATA_BYTES
  }

  // One-byte chunks still ahead before the current credit runs out.
  function Crumbs(g: Gate, remaining: nat): nat {
    if g.NilGate? || g.credit == 0 || remaining == 0 then 0
    else if g.credit < Min(remaining, FRAME_DATA_BYTES) then g.credit
    else FRAME_DATA_BYTES - 1
  }

  lemma CeilDivStep(n: nat)
    requires n > 0
    ensures CeilDiv(n - 1) <= CeilDiv(n)
    ensures CeilDiv(n - Min(n, FRAME_DATA_BYTES)) == CeilDiv(n) - 1
  {
  }

  // One take pays for its frame: out of the full chunks still due, or out of
  // the crumbs, which only a newly consumed grant can replenish.
  lemma TakePays(g: Gate, remaining: nat, signals: seq<Signal>)
    requires remaining > 0
    ensures var t := TakeAvailable(g, Min(remaining, FRAME_DATA_BYTES), signals);
            var due := CeilDiv(remaining) + Crumbs(g, remaining) + (FRAME_DATA_BYTES - 1) * |t.grants|;
            t.outcome.Took? ==>
              && t.outcome.n <= remaining
              && 1 + CeilDiv(remaining - t.outcome.n) + Crumbs(t.gate, remaining - t.outcome.n) <= due
  {
    TakeConserves(g, Min(remaining, FRAME_DATA_BYTES), signals);
    CeilDivStep(remaining);
    var t := TakeAvailable(g, Min(remaining, FRAME_DATA_BYTES), signals);
    if g.Gate? && t.outcome.Took? {
      TakeShape(g, Min(remaining, FRAME_DATA_BYTES), signals);
      if t.grants == [] {
        assert Sum(t.grants) == 0;
      } else {
        assert (FRAME_DATA_BYTES - 1) * |t.grants| >= FRAME_DATA_BYTES - 1;
      }
    }
  }

  // The frames that `remaining` bytes may still become.
  function Due(e: Emitter, remaining: nat): nat {
    CeilDiv(remaining) + Crumbs(e.gate, remaining)
  }

  lemma ChunkPays(e: Emitter, attempt: U32, offset: U64, remaining: seq<Byte>)
    requires remaining != []
    ensures var r := SendChunk(e, attempt, offset, remaining);
            && |e.grants| <= |r.emitter.grants|
            && (r.Went? ==>
                  1 + Due(r.emitter, |remaining| - r.n)
                  <= Due(e, |remaining|) + (FRAME_DATA_BYTES - 1) * (|r.emitter.grants| - |e.grants|))
  {
    ChunkTakes(e, attempt, offset, remaining);
    TakePays(e.gate, |remaining|, e.signals);
  }

  lemma RoundPays(e: Emitter, attempt: U32, offset: U64, remaining: seq<Byte>)
    returns (went: bool, mid: Emitter, n: nat)
    requires remaining != []
    ensures |e.grants| <= |mid.grants|
    ensures !went ==> SendData(e, attempt, offset, remaining) == mid && |mid.out.wire| == |e.out.wire|
    ensures went ==>
              && 1 <= n <= |remaining|
              && SendData(e, attempt, offset, remaining) == SendData(mid, attempt, Wrap64(offset + n), remaining[n..])
              && |mid.out.wire| == |e.out.wire| + 1
              && 1 + Due(mid, |remaining| - n) <= Due(e, |remaining|) + (FRAME_DATA_BYTES - 1) * (|mid.grants| - |e.grants|)
  {
    ChunkTakes(e, attempt, offset, remaining);
    ChunkPays(e, attempt, offset, remaining);
    var r := SendChunk(e, attempt, offset, remaining);
    went, mid, n := r.Went?, r.emitter, if r.Went? then r.n else 0;
  }

  lemma {:induction false} ChunksPaid(e: Emitter, attempt: U32, offset: U64, remaining: seq<Byte>)
    ensures var e' := SendData(e, attempt, offset, remaining);
            && |e.grants| <= |e'.grants|
            && |e'.out.wire| - |e.out.wire| <= Due(e, |remaining|) + (FRAME_DATA_BYTES - 1) * (|e'.grants| - |e.grants|)
    decreases |remaining|
  {
    if remaining == [] {
    } else {
      var went, mid, n := RoundPays(e, attempt, offset, remaining);
      if went {
        ChunksPaid(mid, attempt, Wrap64(offset + n), remaining[n..]);
      }
    }
  }

  // A payload of L bytes that consumes g grants becomes at most
  // ceil(L / 32768) + 32767 * (1 + g) frames.
  lemma ChunkBound(e: Emitter, attempt: U32, offset: U64, remaining: seq<Byte>)
    ensures var e' := SendData(e, attempt, offset, remaining);
            |e'.out.wire| - |e.out.wire| <= CeilDiv(|remaining|)
                                            + (FRAME_DATA_BYTES - 1) * (1 + |e'.grants| - |e.grants|)
  {
    ChunksPaid(e, attempt, offset, remaining);
  }

  lemma RoundFull(e: Emitter, attempt: U32, offset: U64, remaining: seq<Byte>)
    returns (mid: Emitter, n: nat)
    requires remaining != [] && (e.gate.Gate? ==> e.gate.credit >= |remaining|)
    ensures n == Min(|remaining|, FRAME_DATA_BYTES)
    ensures SendData(e, attempt, offset, remaining) == SendData(mid, attempt, Wrap64(offset + n), remaining[n..])
    ensures |mid.out.wire| == |e.out.wire| + 1
    ensures mid.gate.Gate? ==> mid.gate.credit >= |remaining| - n
    ensures mid.grants == e.grants && mid.signals == e.signals && mid.cut == e.cut && mid.waiting == e.waiting
  {
    var r := SendChunk(e, attempt, offset, remaining);
    mid, n := r.emitter, r.n;
  }

  // With no limit, or credit for the whole payload at the start, it is exactly
  // ceil(L / 32768) frames, no grant is consumed and nothing is left unsent.
  lemma {:induction false} ChunkCountExact(e: Emitter, attempt: U32, offset: U64, remaining: seq<Byte>)
    requires e.gate.Gate? ==> e.gate.credit >= |remaining|
    ensures var e' := SendData(e, attempt, offset, remaining);
            && |e'.out.wire| - |e.out.wire| == CeilDiv(|remaining|)
            && e'.grants == e.grants && e'.signals == e.signals
            && e'.cut == e.cut && e'.waiting == e.waiting
    decreases |remaining|
  {
    if remaining == [] {
    } else {
      var mid, n := RoundFull(e, attempt, offset, remaining);
      CeilDivStep(|remaining|);
      ChunkCountExact(mid, attempt, Wrap64(offset + n), remaining[n..]);
    }
  }
}
