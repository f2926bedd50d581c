// egress/assignment.go: waitForResult, which watches the request stream while
// the executor runs, and the flow of download credit from that stream through
// the gate's queue to the sender.

module Download {
  import opened Frames
  import opened StreamValidator
  import opened CreditGate

  // ------------------------------------------------------- waiting for a result

  datatype Event =
    | ResultReady(result: seq<Frame>)
    | Arrives(frame: Frame, at: nat)

  // `log` lists the frames accepted since the body phase; `granted` the amounts
  // handed to the gate, in order.
  datatype Waiter = Waiter(validator: Validator, log: seq<Frame>, granted: seq<U64>)

  datatype Ending =
    | Returned(result: seq<Frame>, canceled: bool, reason: string)
    | StillWaiting

  predicate IsCredit(f: Frame) {
    f.Frame? && f.payload.Credit?
  }

  predicate IsCancel(f: Frame) {
    f.Frame? && f.payload.Cancel?
  }

  // What a frame asks the gate to add; the gate ignores a grant of 0.
  function GrantOf(f: Frame): seq<U64> {
    if IsCredit(f) && f.payload.downloadBytes != 0 then [f.payload.downloadBytes] else []
  }

  function GrantAmount(f: Frame): U64 {
    if IsCredit(f) then f.payload.downloadBytes else 0
  }

  function OnFrame(w: Waiter, f: Frame, at: nat): Waiter {
    var (outcome, v) := AcceptStep(w.validator, f, at);
    if outcome != Accepted then w else Waiter(v, w.log + [f], w.granted + GrantOf(f))
  }

  // The result that ends the wait once a cancellation has been accepted.
  function AwaitResult(events: seq<Event>, reason: string): Ending {
    if events == [] then StillWaiting
    else if events[0].ResultReady? then Returned(events[0].result, true, reason)
    else AwaitResult(events[1..], reason)
  }

  predicate CancelledBy(w: Waiter, f: Frame, at: nat) {
    AcceptStep(w.validator, f, at).0 == Accepted && IsCancel(f)
  }

  function WaitForResult(w: Waiter, events: seq<Event>): (Waiter, Ending)
    decreases |events|
  {
    if events == [] then (w, StillWaiting)
    else
      match events[0]
      case ResultReady(result) => (w, Returned(result, false, ""))
      case Arrives(f, at) =>
        if CancelledBy(w, f, at) then (OnFrame(w, f, at), AwaitResult(events[1..], f.payload.cancelReason))
        else WaitForResult(OnFrame(w, f, at), events[1..])
  }

  // The grants that accepted frames carry, one for each distinct frame.
  function GrantsOf(log: seq<Frame>): seq<U64> {
    if log == [] then [] else GrantsOf(log[..|log| - 1]) + GrantOf(log[|log| - 1])
  }

  ghost predicate WaiterOk(w: Waiter, opts: Options, history: seq<Frame>) {
    Tracks(w.validator, opts, history + w.log) && w.granted == GrantsOf(w.log)
  }

  lemma GrantsSnoc(log: seq<Frame>, f: Frame)
    ensures GrantsOf(log + [f]) == GrantsOf(log) + GrantOf(f)
  {
    assert (log + [f])[..|log|] == log;
  }

  lemma GrantedSnoc(log: seq<Frame>, f: Frame)
    ensures Sum(GrantsOf(log + [f])) == Sum(GrantsOf(log)) + GrantAmount(f)
  {
    GrantsSnoc(log, f);
    SumOne(GrantsOf(log), GrantOf(f));
  }

  lemma SumOne(amounts: seq<U64>, more: seq<U64>)
    requires |more| <= 1
    ensures Sum(amounts + more) == Sum(amounts) + (if more == [] then 0 else more[0])
  {
    if more == [] {
      assert amounts + more == amounts;
    } else {
      assert more == [more[0]];
      SumSnoc(amounts, more[0]);
    }
  }

  lemma AcceptedKeeps(v: Validator, opts: Options, history: seq<Frame>, log: seq<Frame>, f: Frame, at: nat)
    requires Tracks(v, opts, history + log) && AcceptStep(v, f, at).0 == Accepted
    ensures Tracks(AcceptStep(v, f, at).1, opts, history + (log + [f]))
  {
    AcceptIffExtends(v, opts, history + log, f, at);
    SeqAssoc(history, log, [f]);
  }

  lemma OnFrameKeeps(w: Waiter, opts: Options, history: seq<Frame>, f: Frame, at: nat)
    requires WaiterOk(w, opts, history)
    ensures WaiterOk(OnFrame(w, f, at), opts, history)
  {
    if AcceptStep(w.validator, f, at).0 == Accepted {
      AcceptedKeeps(w.validator, opts, history, w.log, f, at);
      GrantsSnoc(w.log, f);
    }
  }

  ghost predicate NoCancel(log: seq<Frame>) {
    forall i :: 0 <= i < |log| ==> !IsCancel(log[i])
  }

  // The last frame is the first Cancel, with this reason.
  ghost predicate FirstCancel(log: seq<Frame>, reason: string) {
    && log != [] && NoCancel(log[..|log| - 1])
    && IsCancel(log[|log| - 1]) && log[|log| - 1].payload.cancelReason == reason
  }

  lemma OnFrameCancels(w: Waiter, f: Frame, at: nat)
    requires NoCancel(w.log)
    ensures CancelledBy(w, f, at) ==> FirstCancel(OnFrame(w, f, at).log, f.payload.cancelReason)
    ensures !CancelledBy(w, f, at) ==> NoCancel(OnFrame(w, f, at).log)
  {
    assert (w.log + [f])[..|w.log|] == w.log;
  }

  // A wait that was cancelled stopped at the first accepted Cancel frame, the
  // last frame it looked at, and reports that frame's reason; a wait that was
  // not saw none. Either way exactly the accepted Credit frames were granted,
  // each once, in order.
  lemma {:induction false} WaitMeaning(w: Waiter, opts: Options, history: seq<Frame>, events: seq<Event>)
    requires WaiterOk(w, opts, history) && NoCancel(w.log)
    ensures var (w', ending) := WaitForResult(w, events);
            && WaiterOk(w', opts, history)
            && (ending.Returned? ==> ResultReady(ending.result) in events)
            && (ending.Returned? && ending.canceled ==> FirstCancel(w'.log, ending.reason))
            && (ending.Returned? && !ending.canceled ==> NoCancel(w'.log))
    decreases |events|
  {
    if events == [] || events[0].ResultReady? {
    } else {
      var f, at := events[0].frame, events[0].at;
      OnFrameKeeps(w, opts, history, f, at);
      OnFrameCancels(w, f, at);
      if CancelledBy(w, f, at) {
        AwaitedIsThere(events[1..], f.payload.cancelReason);
      } else {
        WaitMeaning(OnFrame(w, f, at), opts, history, events[1..]);
      }
    }
  }

  lemma {:induction false} AwaitedIsThere(events: seq<Event>, reason: string)
    ensures var ending := AwaitResult(events, reason);
            ending.Returned? ==> ending.canceled && ending.reason == reason && ResultReady(ending.result) in events
  {
    if events == [] || events[0].ResultReady? {
    } else {
      AwaitedIsThere(events[1..], reason);
    }
  }

  // The result delivered first, if any is.
  function FirstResult(events: seq<Event>): Option<seq<Frame>> {
    if events == [] then None
    else if events[0].ResultReady? then Some(events[0].result)
    else FirstResult(events[1..])
  }

  lemma {:induction false} AwaitedIsFirst(events: seq<Event>, reason: string)
    ensures AwaitResult(events, reason)
            == match FirstResult(events) case None => StillWaiting case Some(result) => Returned(result, true, reason)
  {
    if events == [] || events[0].ResultReady? {
    } else {
      AwaitedIsFirst(events[1..], reason);
    }
  }

  // The wait goes on exactly as long as no result is delivered, and returns the
  // first one that is.
  lemma {:induction false} WaitEnds(w: Waiter, events: seq<Event>)
    ensures var ending := WaitForResult(w, events).1;
            match FirstResult(events)
            case None => ending.StillWaiting?
            case Some(result) => ending.Returned? && ending.result == result
    decreases |events|
  {
    if events == [] || events[0].ResultReady? {
    } else {
      var f, at := events[0].frame, events[0].at;
      if CancelledBy(w, f, at) {
        AwaitedIsFirst(events[1..], f.payload.cancelReason);
      } else {
        WaitEnds(OnFrame(w, f, at), events[1..]);
      }
    }
  }

  // What is heard of the frames that arrive before the first result: a frame is
  // accepted if it continues the stream, until a Cancel has been.
  ghost predicate Heard(opts: Options, history: seq<Frame>, log: seq<Frame>, log': seq<Frame>, events: seq<Event>)
    decreases |events|
  {
    if events == [] || events[0].ResultReady? || (log != [] && IsCancel(log[|log| - 1])) then log' == log
    else if ValidStream(opts, history + (log + [events[0].frame])) then
      Heard(opts, history, log + [events[0].frame], log', events[1..])
    else Heard(opts, history, log, log', events[1..])
  }

  lemma {:induction false} WaitHears(w: Waiter, opts: Options, history: seq<Frame>, events: seq<Event>)
    requires WaiterOk(w, opts, history) && NoCancel(w.log)
    ensures Heard(opts, history, w.log, WaitForResult(w, events).0.log, events)
    decreases |events|
  {
    if events == [] || events[0].ResultReady? {
    } else {
      var f, at := events[0].frame, events[0].at;
      AcceptIffExtends(w.validator, opts, history + w.log, f, at);
      SeqAssoc(history, w.log, [f]);
      OnFrameKeeps(w, opts, history, f, at);
      OnFrameCancels(w, f, at);
      if !CancelledBy(w, f, at) {
        WaitHears(OnFrame(w, f, at), opts, history, events[1..]);
      }
    }
  }

  // The download credit the frames of a log grant in all.
  function DownloadGranted(log: seq<Frame>): nat {
    if log == [] then 0
    else
      var last := log[|log| - 1];
      DownloadGranted(log[..|log| - 1]) + if last.Frame? && last.payload.Credit? then last.payload.downloadBytes else 0
  }

  lemma {:induction false} GrantsAreDownload(log: seq<Frame>)
    ensures Sum(GrantsOf(log)) == DownloadGranted(log)
  {
    if log == [] {
    } else {
      var init, last := log[..|log| - 1], log[|log| - 1];
      GrantsAreDownload(init);
      assert log == init + [last];
      GrantedSnoc(init, last);
    }
  }

  function DropReplays(w: Waiter, history: seq<Frame>, events: seq<Event>): seq<Event>
    decreases |events|
  {
    if events == [] then []
    else
      match events[0]
      case ResultReady(_) => events
      case Arrives(f, at) =>
        if f in history + w.log then DropReplays(w, history, events[1..])
        else if CancelledBy(w, f, at) then events
        else [events[0]] + DropReplays(OnFrame(w, f, at), history, events[1..])
  }

  // Replays of frames accepted earlier, in the body phase or here, change
  // neither the result nor the credit granted.
  lemma {:induction false} ReplaysInvisible(w: Waiter, opts: Options, history: seq<Frame>, events: seq<Event>)
    requires WaiterOk(w, opts, history)
    ensures WaitForResult(w, DropReplays(w, history, events)) == WaitForResult(w, events)
    decreases |events|
  {
    if events == [] || events[0].ResultReady? {
    } else {
      var f, at, rest := events[0].frame, events[0].at, events[1..];
      if f in history + w.log {
        ReplayOutcome(w.validator, opts, history + w.log, f, at);
        ReplaysInvisible(w, opts, history, rest);
      } else if !CancelledBy(w, f, at) {
        OnFrameKeeps(w, opts, history, f, at);
        var kept := DropReplays(OnFrame(w, f, at), history, rest);
        assert ([events[0]] + kept)[1..] == kept;
        ReplaysInvisible(OnFrame(w, f, at), opts, history, rest);
      }
    }
  }

  // The loop itself, over a validator object.
  method Await(checker: Checker, events: seq<Event>) returns (ending: Ending, granted: seq<U64>, ghost log: seq<Frame>)
    requires checker.Valid()
    modifies checker
    ensures checker.Valid()
    ensures (Waiter(checker.State(), log, granted), ending)
            == WaitForResult(Waiter(old(checker.State()), [], []), events)
  {
    granted, log := [], [];
    ghost var goal := WaitForResult(Waiter(checker.State(), [], []), events);
    for i := 0 to |events|
      invariant checker.Valid()
      invariant WaitForResult(Waiter(checker.State(), log, granted), events[i..]) == goal
    {
      assert events[i..][1..] == events[i + 1..];
      match events[i] {
        case ResultReady(result) =>
          return Returned(result, false, ""), granted, log;
        case Arrives(f, at) =>
          var outcome := checker.Accept(f, at);
          if outcome == Accepted {
            log := log + [f];
            granted := granted + GrantOf(f);
            if IsCancel(f) {
              ending := DrainToResult(events[i + 1..], f.payload.cancelReason);
              return ending, granted, log;
            }
          }
      }
    }
    return StillWaiting, granted, log;
  }

  // The receive from the result channel that follows a cancellation.
  method DrainToResult(events: seq<Event>, reason: string) returns (ending: Ending)
    ensures ending == AwaitResult(events, reason)
  {
    for i := 0 to |events|
      invariant AwaitResult(events[i..], reason) == AwaitResult(events, reason)
    {
      if events[i].ResultReady? {
        return Returned(events[i].result, true, reason);
      }
    }
    return StillWaiting;
  }
}
