// When the tunnel's frames are published in the order of their numbers: a
// condition on the schedule of the two goroutines alone.

module TunnelOrder {
  import opened Frames
  import opened StreamValidator
  import opened TunnelWire
  import opened RawTunnel
  import opened TunnelSafety

  // Published in number order, with nothing after a terminal frame.
  ghost predicate Orderly(l: Line) {
    && (forall k :: 0 <= k < |l.wire| ==> l.wire[k] == k)
    && (forall k :: 0 <= k < |l.wire| && TerminalAt(l, k) ==> k == |l.wire| - 1)
  }

  // The run loop has published its terminal frame and returned.
  ghost predicate Ended(t: Tunnel) {
    t.loop.Returned? && exists i: nat :: TerminalAt(t.line, i)
  }

  // One goroutine publishes although the other holds a smaller number in
  // flight, or the download publishes although the run loop has ended.
  ghost predicate Overtakes(t: Tunnel, step: Step) {
    && Enabled(t, step)
    && match step
       case LoopPublish => t.line.downFrame.Some? && t.line.downFrame.value < t.line.loopFrame.value
       case DownPublish =>
         || (t.line.loopFrame.Some? && t.line.loopFrame.value < t.line.downFrame.value)
         || Ended(t)
       case _ => false
  }

  ghost predicate InTurn(t: Tunnel, steps: seq<Step>) {
    steps != [] ==>
      InTurn(t, steps[..|steps| - 1]) && !Overtakes(Run(t, steps[..|steps| - 1]), steps[|steps| - 1])
  }

  // -------------------------------------------- how far the wire can be behind

  function Held(frame: Option<nat>): nat {
    if frame.Some? then 1 else 0
  }

  // Everything numbered is published or in flight, so a frame is published at
  // most one place before its turn.
  ghost predicate Counted(l: Line) {
    && |l.numbered| == |l.wire| + Held(l.loopFrame) + Held(l.downFrame)
    && (l.loopFrame.Some? ==> l.loopFrame.value < |l.numbered|)
    && (l.downFrame.Some? ==> l.downFrame.value < |l.numbered|)
    && forall k :: 0 <= k < |l.wire| ==> l.wire[k] <= k + 1
  }

  lemma AssignCounted(l: Line, o: Origin, payload: Payload)
    requires Counted(l) && l.InFlight(o).None?
    ensures Counted(Assign(l, o, payload))
  {
  }

  lemma EmitCounted(l: Line, o: Origin)
    requires Counted(l) && l.InFlight(o).Some?
    ensures Counted(Emit(l, o))
  {
  }

  lemma NextCounted(t: Tunnel, step: Step)
    requires WireOk(t) && Counted(t.line)
    ensures Counted(Next(t, step).line)
  {
    if Enabled(t, step) {
      if LoopMove(step) {
        var payload := LoopEffect(t, step);
        if !LoopQuiet(t, Next(t, step)) {
          AssignCounted(t.line, RunLoop, payload);
        }
      } else {
        match step
        case LoopPublish => EmitCounted(t.line, RunLoop);
        case DownPublish => EmitCounted(t.line, Origin.Download);
        case DownNumber =>
          AssignCounted(t.line, Origin.Download, Data(t.offset, t.down.remaining[..TakenCount(t)]));
        case _ =>
      }
    }
  }

  lemma {:induction false} RunCounted(t: Tunnel, steps: seq<Step>)
    requires WireOk(t) && Counted(t.line)
    ensures WireOk(Run(t, steps)) && Counted(Run(t, steps).line)
  {
    if steps == [] {
    } else {
      var before := Run(t, steps[..|steps| - 1]);
      RunCounted(t, steps[..|steps| - 1]);
      NextWireOk(before, steps[|steps| - 1]);
      NextCounted(before, steps[|steps| - 1]);
    }
  }

  // ------------------------------------------------ numbering keeps the order

  // More frames numbered, the same ones published.
  ghost predicate OnlyNumbered(l: Line, l': Line) {
    l.numbered <= l'.numbered && l'.wire == l.wire
  }

  lemma NumberedOrderly(l: Line, l': Line)
    requires Merged(l) && OnlyNumbered(l, l')
    ensures Orderly(l') <==> Orderly(l)
  {
    if forall k :: 0 <= k < |l.wire| ==> l.wire[k] == k {
      assert |l.wire| > 0 ==> l.wire[|l.wire| - 1] < |l.numbered|;
      assert forall k :: 0 <= k < |l.wire| ==> (TerminalAt(l, k) <==> TerminalAt(l', k));
    }
  }

  // --------------------------------------------- publishing in turn, or not

  ghost predicate TerminalOnWire(l: Line) {
    exists k :: 0 <= k < |l.wire| && TerminalAt(l, l.wire[k])
  }

  lemma NotOnWire(l: Line, o: Origin)
    requires Merged(l) && l.InFlight(o).Some?
    ensures !OnWire(l, l.InFlight(o).value)
  {
    forall k | 0 <= k < |l.wire|
      ensures l.wire[k] != l.InFlight(o).value
    {
      assert BeforeInFlight(l, o, k);
    }
  }

  lemma PrefixOnWire(l: Line)
    requires forall k :: 0 <= k < |l.wire| ==> l.wire[k] == k
    ensures forall i: nat :: OnWire(l, i) <==> i < |l.wire|
  {
    forall i: nat | i < |l.wire|
      ensures OnWire(l, i)
    {
      assert l.wire[i] == i;
    }
  }

  function Other(o: Origin): Origin {
    if o.RunLoop? then Origin.Download else RunLoop
  }

  // The other goroutine holds a smaller number.
  predicate HoldsSmaller(l: Line, o: Origin)
    requires l.InFlight(o).Some?
  {
    l.InFlight(Other(o)).Some? && l.InFlight(Other(o)).value < l.InFlight(o).value
  }

  // While the wire is in order, the frame in flight is next in turn exactly if
  // the other goroutine does not hold a smaller number.
  lemma NextInTurn(l: Line, o: Origin)
    requires Merged(l) && l.InFlight(o).Some?
    requires forall k :: 0 <= k < |l.wire| ==> l.wire[k] == k
    ensures l.InFlight(o).value == |l.wire| <==> !HoldsSmaller(l, o)
  {
    var n, i := |l.wire|, l.InFlight(o).value;
    PrefixOnWire(l);
    NotOnWire(l, o);
    if l.InFlight(Other(o)).Some? {
      NotOnWire(l, Other(o));
    }
    assert n < |l.numbered| ==> Accounted(l, n) && !OnWire(l, n);
  }

  lemma EmitOrderly(l: Line, o: Origin)
    requires Merged(l) && l.InFlight(o).Some?
    ensures Orderly(Emit(l, o)) <==> Orderly(l) && !HoldsSmaller(l, o) && !TerminalOnWire(l)
  {
    var l', n := Emit(l, o), |l.wire|;
    assert l'.wire[n] == l.InFlight(o).value;
    assert forall k :: 0 <= k < n ==> l'.wire[k] == l.wire[k];
    if forall k :: 0 <= k < n ==> l.wire[k] == k {
      NextInTurn(l, o);
      TerminalOnPrefix(l);
      assert forall k: nat :: TerminalAt(l', k) <==> TerminalAt(l, k);
    } else {
      assert !Orderly(l');
    }
  }

  lemma TerminalOnPrefix(l: Line)
    requires forall k :: 0 <= k < |l.wire| ==> l.wire[k] == k
    ensures TerminalOnWire(l) <==> exists k :: 0 <= k < |l.wire| && TerminalAt(l, k)
  {
    if TerminalOnWire(l) {
      var k :| 0 <= k < |l.wire| && TerminalAt(l, l.wire[k]);
      assert TerminalAt(l, k);
    }
    if k :| 0 <= k < |l.wire| && TerminalAt(l, k) {
      assert TerminalAt(l, l.wire[k]);
    }
  }

  // The run loop has ended exactly when a terminal frame is on the wire.
  lemma EndedIsOnWire(t: Tunnel)
    requires Ok(t)
    ensures Ended(t) <==> TerminalOnWire(t.line)
  {
    var l := t.line;
    if Ended(t) {
      var i: nat :| TerminalAt(l, i);
      assert LastOfLoop(t, i);
      var k :| 0 <= k < |l.wire| && l.wire[k] == i;
      assert TerminalAt(l, l.wire[k]);
    }
    if TerminalOnWire(l) {
      var k :| 0 <= k < |l.wire| && TerminalAt(l, l.wire[k]);
      assert LastOfLoop(t, l.wire[k]);
      if t.loop.Announcing? {
        NotOnWire(l, RunLoop);
        assert OnWire(l, l.wire[k]);
      }
    }
  }

  lemma NextOrderly(t: Tunnel, step: Step)
    requires Ok(t)
    ensures Orderly(Next(t, step).line) <==> Orderly(t.line) && !Overtakes(t, step)
  {
    if Enabled(t, step) {
      EndedIsOnWire(t);
      if step.LoopPublish? {
        EmitOrderly(t.line, RunLoop);
      } else if step.DownPublish? {
        EmitOrderly(t.line, Origin.Download);
      } else {
        QuietWire(t, step);
        NumberedOrderly(t.line, Next(t, step).line);
      }
    }
  }

  lemma QuietWire(t: Tunnel, step: Step)
    requires Enabled(t, step) && !step.LoopPublish? && !step.DownPublish?
    ensures OnlyNumbered(t.line, Next(t, step).line)
  {
    if LoopMove(step) {
      var payload := LoopEffect(t, step);
    } else {
      DownEffect(t, step);
    }
  }

  lemma {:induction false} RunOrderly(t: Tunnel, steps: seq<Step>)
    requires Ok(t)
    ensures Orderly(Run(t, steps).line) <==> Orderly(t.line) && InTurn(t, steps)
  {
    if steps == [] {
    } else {
      RunOrderly(t, steps[..|steps| - 1]);
      RunOk(t, steps[..|steps| - 1]);
      NextOrderly(Run(t, steps[..|steps| - 1]), steps[|steps| - 1]);
    }
  }

  lemma OpenedOrderly(v: Validator, attempt: U32, host: string, port: U32, initial: U64)
    ensures Orderly(Opened(v, attempt, host, port, initial).line)
  {
  }

  // In every interleaving: the wire is in order exactly if every publication
  // happened in turn.
  lemma OrderlyIffInTurn(v: Validator, attempt: U32, host: string, port: U32, initial: U64, steps: seq<Step>)
    ensures Orderly(Run(Opened(v, attempt, host, port, initial), steps).line)
            <==> InTurn(Opened(v, attempt, host, port, initial), steps)
  {
    OpenedOk(v, attempt, host, port, initial);
    OpenedOrderly(v, attempt, host, port, initial);
    RunOrderly(Opened(v, attempt, host, port, initial), steps);
  }
}
