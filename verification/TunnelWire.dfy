// egress/assignment.go: tunnelFrameBuilder and the publishing of its frames.
//
// A frame gets its number under the builder's lock but is published outside
// it, so between the two the other goroutine may number and publish frames of
// its own. A line records both orders: `numbered` lists the frames in the order
// of their numbers, `wire` the indices into it in the order of publication.

module TunnelWire {
  import opened Frames
  import opened StreamValidator
  import Network

  datatype Origin = RunLoop | Download

  datatype Line = Line(
    attempt: U32,
    seqNo: U64,
    numbered: seq<Frame>,
    owner: seq<Origin>,
    wire: seq<nat>,
    loopFrame: Option<nat>,
    downFrame: Option<nat>)
  {
    // The frame `o` has numbered and not yet published.
    function InFlight(o: Origin): Option<nat> {
      if o.RunLoop? then loopFrame else downFrame
    }

    function SetInFlight(o: Origin, i: Option<nat>): Line {
      if o.RunLoop? then this.(loopFrame := i) else this.(downFrame := i)
    }
  }

  function NewLine(attempt: U32): Line {
    Line(attempt, 0, [], [], [], None, None)
  }

  // `next`: the frame gets the following number and the builder's attempt.
  function Assign(l: Line, o: Origin, payload: Payload): Line {
    var n := Wrap64(l.seqNo + 1);
    l.(seqNo := n, numbered := l.numbered + [Frame(n, l.attempt, payload)], owner := l.owner + [o])
     .SetInFlight(o, Some(|l.numbered|))
  }

  function Emit(l: Line, o: Origin): Line
    requires l.InFlight(o).Some?
  {
    l.(wire := l.wire + [l.InFlight(o).value]).SetInFlight(o, None)
  }

  class FrameBuilder {
    const attempt: U32
    var seqNo: U64

    constructor (attempt: U32)
      ensures this.attempt == attempt && seqNo == 0
    {
      this.attempt := attempt;
      seqNo := 0;
    }

    // `l` is the line this builder numbers for, `o` the calling goroutine.
    method Next(payload: Payload, ghost l: Line, ghost o: Origin) returns (f: Frame)
      requires l.seqNo == seqNo && l.attempt == attempt
      modifies `seqNo
      ensures var l' := Assign(l, o, payload);
              l'.seqNo == seqNo && l'.attempt == attempt && l'.numbered == l.numbered + [f]
      ensures f == Frame(seqNo, attempt, payload)
    {
      seqNo := Wrap64(seqNo + 1);
      return Frame(seqNo, attempt, payload);
    }
  }

  // --------------------------------------------------------------- numbering

  // The numbers handed out are 1, 2, 3, ..., each once, modulo 2^64.
  ghost predicate WellNumbered(l: Line) {
    && |l.owner| == |l.numbered|
    && l.seqNo == Wrap64(|l.numbered|)
    && forall i :: 0 <= i < |l.numbered| ==> NumberedAt(l, i)
  }

  ghost predicate NumberedAt(l: Line, i: nat)
    requires i < |l.numbered|
  {
    l.numbered[i].HasPayload() && l.numbered[i].streamSeq == Wrap64(i + 1) && l.numbered[i].attempt == l.attempt
  }

  lemma AssignWellNumbered(l: Line, o: Origin, payload: Payload)
    requires WellNumbered(l) && !payload.NoPayload?
    ensures WellNumbered(Assign(l, o, payload))
  {
    WrapAdd(|l.numbered|, 1);
    var l' := Assign(l, o, payload);
    forall i | 0 <= i < |l'.numbered|
      ensures NumberedAt(l', i)
    {
      assert i < |l.numbered| ==> NumberedAt(l, i);
    }
  }

  lemma EmitWellNumbered(l: Line, o: Origin)
    requires WellNumbered(l) && l.InFlight(o).Some?
    ensures WellNumbered(Emit(l, o))
  {
    var l' := Emit(l, o);
    forall i | 0 <= i < |l'.numbered|
      ensures NumberedAt(l', i)
    {
      assert NumberedAt(l, i);
    }
  }

  // -------------------------------------------------------- order on the wire

  ghost predicate OnWire(l: Line, i: nat) {
    i in l.wire
  }

  ghost predicate Accounted(l: Line, i: nat) {
    OnWire(l, i) || l.loopFrame == Some(i) || l.downFrame == Some(i)
  }

  // A frame in flight comes after everything its goroutine has published.
  ghost predicate InFlightLast(l: Line, o: Origin)
    requires |l.owner| == |l.numbered|
  {
    l.InFlight(o).Some? ==>
      && l.InFlight(o).value < |l.numbered|
      && l.owner[l.InFlight(o).value] == o
      && forall k :: 0 <= k < |l.wire| ==> BeforeInFlight(l, o, k)
  }

  ghost predicate BeforeInFlight(l: Line, o: Origin, k: nat)
    requires |l.owner| == |l.numbered| && k < |l.wire| && l.InFlight(o).Some?
  {
    l.wire[k] < |l.numbered| && (l.owner[l.wire[k]] == o ==> l.wire[k] < l.InFlight(o).value)
  }

  // Of two frames of one goroutine, the one published first has the smaller number.
  ghost predicate InOrder(l: Line, j: nat, k: nat)
    requires j < |l.wire| && k < |l.wire|
  {
    && l.wire[j] < |l.owner| && l.wire[k] < |l.owner|
    && (l.owner[l.wire[j]] == l.owner[l.wire[k]] ==> l.wire[j] < l.wire[k])
  }

  // The wire is a merge of two sequences of increasing numbers, one from each
  // goroutine, and every number handed out is on it or in flight.
  ghost predicate Merged(l: Line) {
    && |l.owner| == |l.numbered|
    && (forall k :: 0 <= k < |l.wire| ==> l.wire[k] < |l.numbered|)
    && (forall j, k :: 0 <= j < k < |l.wire| ==> InOrder(l, j, k))
    && (forall i :: 0 <= i < |l.numbered| ==> Accounted(l, i))
    && InFlightLast(l, RunLoop) && InFlightLast(l, Download)
  }

  lemma AssignMerged(l: Line, o: Origin, payload: Payload)
    requires Merged(l) && l.InFlight(o).None?
    ensures Merged(Assign(l, o, payload))
  {
    var l' := Assign(l, o, payload);
    forall j, k | 0 <= j < k < |l'.wire|
      ensures InOrder(l', j, k)
    {
      assert InOrder(l, j, k);
    }
    forall i | 0 <= i < |l'.numbered|
      ensures Accounted(l', i)
    {
      if i < |l.numbered| {
        assert Accounted(l, i);
        assert OnWire(l, i) ==> OnWire(l', i);
      }
    }
    AssignInFlight(l, o, payload, RunLoop);
    AssignInFlight(l, o, payload, Download);
  }

  lemma AssignInFlight(l: Line, o: Origin, payload: Payload, q: Origin)
    requires Merged(l) && l.InFlight(o).None?
    ensures InFlightLast(Assign(l, o, payload), q)
  {
    var l' := Assign(l, o, payload);
    if l'.InFlight(q).Some? {
      forall k | 0 <= k < |l'.wire|
        ensures BeforeInFlight(l', q, k)
      {
        assert q != o ==> BeforeInFlight(l, q, k);
      }
    }
  }

  lemma EmitMerged(l: Line, o: Origin)
    requires Merged(l) && l.InFlight(o).Some?
    ensures Merged(Emit(l, o))
  {
    var l' := Emit(l, o);
    forall j, k | 0 <= j < k < |l'.wire|
      ensures InOrder(l', j, k)
    {
      if k < |l.wire| {
        assert InOrder(l, j, k);
      } else {
        assert BeforeInFlight(l, o, j);
      }
    }
    forall i | 0 <= i < |l'.numbered|
      ensures Accounted(l', i)
    {
      assert Accounted(l, i);
      assert l'.wire[|l.wire|] == l.InFlight(o).value;
      if OnWire(l, i) {
        assert i in l'.wire;
      }
    }
    EmitInFlight(l, o, RunLoop);
    EmitInFlight(l, o, Download);
  }

  lemma EmitInFlight(l: Line, o: Origin, q: Origin)
    requires Merged(l) && l.InFlight(o).Some?
    ensures InFlightLast(Emit(l, o), q)
  {
    var l' := Emit(l, o);
    if l'.InFlight(q).Some? {
      forall k | 0 <= k < |l'.wire|
        ensures BeforeInFlight(l', q, k)
      {
        assert k < |l.wire| ==> BeforeInFlight(l, q, k);
      }
    }
  }

  // ------------------------------------------------------------ data on the wire

  // The data bytes on the wire, in publication order.
  function WireData(l: Line, wire: seq<nat>): seq<Byte>
    requires forall k :: 0 <= k < |wire| ==> wire[k] < |l.numbered|
  {
    if wire == [] then []
    else WireData(l, wire[..|wire| - 1]) + l.numbered[wire[|wire| - 1]].Bytes()
  }

  function DataInFlight(l: Line): seq<Byte> {
    if l.downFrame.Some? && l.downFrame.value < |l.numbered| then l.numbered[l.downFrame.value].Bytes() else []
  }

  ghost predicate DataAt(l: Line, i: nat)
    requires i < |l.numbered| && |l.owner| == |l.numbered|
  {
    && (l.owner[i] == Download <==> l.numbered[i].IsData())
    && (l.numbered[i].IsData() ==> l.numbered[i].payload.offset == Wrap64(|DataBytes(l.numbered[..i])|))
  }

  // Data comes from the download goroutine only, and its offsets run on from 0
  // without gap.
  ghost predicate DataNumbered(l: Line) {
    && |l.owner| == |l.numbered|
    && (forall k :: 0 <= k < |l.wire| ==> l.wire[k] < |l.numbered|)
    && (l.downFrame.Some? ==> l.downFrame.value < |l.numbered|)
    && (l.loopFrame.Some? ==> l.loopFrame.value < |l.numbered| && l.owner[l.loopFrame.value] == RunLoop)
    && (forall i :: 0 <= i < |l.numbered| ==> DataAt(l, i))
  }

  // And what is on the wire or in flight is all of it, in order.
  ghost predicate DataInOrder(l: Line) {
    DataNumbered(l) && WireData(l, l.wire) + DataInFlight(l) == DataBytes(l.numbered)
  }

  lemma {:induction false} WireDataStable(l: Line, l': Line, wire: seq<nat>)
    requires l.numbered <= l'.numbered
    requires forall k :: 0 <= k < |wire| ==> wire[k] < |l.numbered|
    ensures WireData(l, wire) == WireData(l', wire)
  {
    if wire == [] {
    } else {
      WireDataStable(l, l', wire[..|wire| - 1]);
    }
  }

  lemma AssignDataAt(l: Line, o: Origin, payload: Payload)
    requires DataNumbered(l)
    requires o == Download <==> payload.Data?
    requires payload.Data? ==> payload.offset == Wrap64(|DataBytes(l.numbered)|)
    ensures DataNumbered(Assign(l, o, payload))
  {
    var l' := Assign(l, o, payload);
    forall i | 0 <= i < |l'.numbered|
      ensures DataAt(l', i)
    {
      assert l'.numbered[..i] == l.numbered[..i];
      if i < |l.numbered| {
        assert DataAt(l, i);
      } else {
        assert l.numbered[..i] == l.numbered;
      }
    }
  }

  lemma NothingMore<T>(s: seq<T>)
    ensures s + [] == s
  {
  }

  lemma AssignBytes(l: Line, o: Origin, payload: Payload)
    ensures DataBytes(Assign(l, o, payload).numbered)
            == DataBytes(l.numbered) + (if payload.Data? then payload.data else [])
  {
    DataBytesSnoc(l.numbered, Frame(Wrap64(l.seqNo + 1), l.attempt, payload));
  }

  // The new frame's bytes are in flight.
  lemma AssignInFlightData(l: Line, o: Origin, payload: Payload)
    requires l.InFlight(o).None? && (o == Download <==> payload.Data?)
    requires l.downFrame.Some? ==> l.downFrame.value < |l.numbered|
    ensures o == Download ==> DataInFlight(l) == [] && DataInFlight(Assign(l, o, payload)) == payload.data
    ensures o == RunLoop ==> DataInFlight(Assign(l, o, payload)) == DataInFlight(l)
  {
  }

  lemma AssignData(l: Line, o: Origin, payload: Payload)
    requires DataInOrder(l) && l.InFlight(o).None?
    requires o == Download <==> payload.Data?
    requires payload.Data? ==> payload.offset == Wrap64(|DataBytes(l.numbered)|)
    ensures DataInOrder(Assign(l, o, payload))
    ensures DataBytes(Assign(l, o, payload).numbered)
            == DataBytes(l.numbered) + (if payload.Data? then payload.data else [])
  {
    AssignDataAt(l, o, payload);
    AssignBytes(l, o, payload);
    AssignInFlightData(l, o, payload);
    WireDataStable(l, Assign(l, o, payload), l.wire);
    NothingMore(WireData(l, l.wire));
    NothingMore(DataBytes(l.numbered));
  }

  lemma EmitDataAt(l: Line, o: Origin)
    requires DataNumbered(l) && l.InFlight(o).Some?
    ensures DataNumbered(Emit(l, o))
  {
    forall i | 0 <= i < |l.numbered|
      ensures DataAt(Emit(l, o), i)
    {
      assert DataAt(l, i);
    }
  }

  lemma WireDataSnoc(l: Line, wire: seq<nat>, i: nat)
    requires i < |l.numbered| && forall k :: 0 <= k < |wire| ==> wire[k] < |l.numbered|
    ensures WireData(l, wire + [i]) == WireData(l, wire) + l.numbered[i].Bytes()
  {
    assert (wire + [i])[..|wire|] == wire;
  }

  // Publishing moves a chunk from in flight to the wire.
  lemma EmitWireData(l: Line, o: Origin)
    requires DataNumbered(l) && l.InFlight(o).Some?
    ensures WireData(l, Emit(l, o).wire) + DataInFlight(Emit(l, o)) == WireData(l, l.wire) + DataInFlight(l)
  {
    var i := l.InFlight(o).value;
    WireDataSnoc(l, l.wire, i);
    assert DataAt(l, i);
    NothingMore(WireData(l, l.wire));
    NothingMore(WireData(l, l.wire) + l.numbered[i].Bytes());
  }

  lemma EmitData(l: Line, o: Origin)
    requires DataInOrder(l) && l.InFlight(o).Some?
    ensures DataInOrder(Emit(l, o))
  {
    EmitDataAt(l, o);
    EmitWireData(l, o);
    WireDataStable(l, Emit(l, o), Emit(l, o).wire);
  }
}
