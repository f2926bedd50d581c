// What the body read makes of each event, and that a body which has arrived is
// delivered: said of the frames that arrived and were accepted, not of the
// reader's counters.

module BodyDelivery {
  import opened Frames
  import opened StreamValidator
  import opened RequestBody
  import BodyReference
  import Naming

  // ------------------------------------------------------------ a single event

  predicate Benign(f: Frame) {
    f.Frame? && (f.payload.RequestStart? || f.payload.Data? || f.payload.Credit?)
  }

  // A body reference that may be resolved: after a RequestStart, with a
  // resolver.
  predicate Resolvable(scope: Scope, log: seq<Entry>, f: Frame) {
    f.IsBodyRef() && scope.hasResolver && LastHead(log).Some?
  }

  predicate Resolves(scope: Scope, log: seq<Entry>, f: Frame, download: BodyReference.Download) {
    Resolvable(scope, log, f) && InScope(scope, f.payload.ref) && download.Body?
  }

  // In scope are the references to objects whose key has the parts of the
  // request's own objects; a reference that names no object is not.
  lemma InScopeMeans(scope: Scope, ref: Reference)
    requires Naming.Without(scope.deploymentId, '/') && Naming.Without(scope.requestId, '/')
    ensures InScope(scope, ref) <==>
              && ref.s3.Some?
              && var parts := Naming.Split(ref.s3.value.objectKey, '/');
                 |parts| >= 6 && parts[..5] == ["deployment", scope.deploymentId, "request", scope.requestId, "request"]
  {
    Naming.KeyParts(ObjectKey(ref), scope.deploymentId, scope.requestId);
  }

  // What is logged of a frame that continues the stream.
  function Logged(scope: Scope, log: seq<Entry>, f: Frame, download: BodyReference.Download, at: nat): Entry {
    Entry(f, if Resolves(scope, log, f, download) then Some(download.body) else None, at)
  }

  // How the read ends on a frame that stops it.
  function StopsWith(scope: Scope, log: seq<Entry>, f: Frame, download: BodyReference.Download): Ending {
    if !Resolvable(scope, log, f) then Abandoned(BadFrame)
    else if !InScope(scope, f.payload.ref) then Failed(ErrorInfo(BodyRefUnavailable, "body_ref_scope_mismatch"))
    else if download.Failure? then Failed(download.info)
    else Abandoned(BadFrame)
  }

  // The read goes on after a frame exactly if the frame repeats an accepted
  // number, or continues the stream and is a RequestStart, data, a credit
  // announcement or a reference that resolves. Exactly the frames that continue
  // the stream are logged.
  lemma FrameMeans(scope: Scope, opts: Options, r: Reader, f: Frame, download: BodyReference.Download, at: nat)
    requires Consistent(scope, opts, r) && Reading(r)
    ensures var history := FramesOf(r.log);
            var continues := ValidStream(opts, history + [f]);
            var p := OnEvent(scope, r, Arrives(f, download, at));
            && (p.Continue? <==>
                  Repeats(opts, history, f) || (continues && (Benign(f) || Resolves(scope, r.log, f, download))))
            && p.reader.log == (if continues then r.log + [Logged(scope, r.log, f, download, at)] else r.log)
            && (p.Stop? ==> p.ending == if continues then StopsWith(scope, r.log, f, download) else Abandoned(BadFrame))
  {
    OutcomeMeans(r.validator, opts, FramesOf(r.log), f);
    AcceptIffExtends(r.validator, opts, FramesOf(r.log), f, at);
    if AcceptStep(r.validator, f, at).0 == Accepted {
      AcceptedMeans(scope, r, f, download, at);
    }
  }

  lemma AcceptedMeans(scope: Scope, r: Reader, f: Frame, download: BodyReference.Download, at: nat)
    requires AcceptStep(r.validator, f, at).0 == Accepted
    requires r.partial.head == LastHead(r.log) && r.partial.failure.None?
    ensures var p := OnEvent(scope, r, Arrives(f, download, at));
            && (p.Continue? <==> Benign(f) || Resolves(scope, r.log, f, download))
            && p.reader.log == r.log + [Logged(scope, r.log, f, download, at)]
            && (p.Stop? ==> p.ending == StopsWith(scope, r.log, f, download))
  {
  }

  // When the last frame was accepted, or the stream opened.
  function LastTime(t0: nat, log: seq<Entry>): nat {
    if log == [] then t0 else log[|log| - 1].at
  }

  // Every other event: the ended context and the closed channel end the read;
  // a tick does exactly if no frame was accepted for the whole timeout.
  lemma OtherEventMeans(scope: Scope, opts: Options, r: Reader, e: Event, t0: nat)
    requires Consistent(scope, opts, r) && Reading(r) && r.validator.lastActivity == LastTime(t0, r.log)
    requires !e.Arrives?
    ensures OnEvent(scope, r, e) ==
            match e
            case ContextDone => Stop(r, Abandoned(ContextEnded))
            case ChannelClosed => Stop(r, Abandoned(Closed))
            case Tick(at) =>
              if 0 < opts.idleTimeout && LastTime(t0, r.log) + opts.idleTimeout <= at
              then Stop(r, Abandoned(IdleAt(at))) else Continue(r)
  {
  }

  // The activity clock of a read from the start always shows that time.
  lemma {:induction false} ReadClock(scope: Scope, expected: U64, r: Reader, t0: nat, events: seq<Event>)
    requires r.validator.lastActivity == LastTime(t0, r.log)
    ensures var r' := Read(scope, expected, r, events).0; r'.validator.lastActivity == LastTime(t0, r'.log)
    decreases |events|
  {
    if Complete(r.partial, expected) || events == [] {
    } else {
      match OnEvent(scope, r, events[0])
      case Continue(r') => ReadClock(scope, expected, r', t0, events[1..]);
      case Stop(_, _) =>
    }
  }

  // So a read that still waits is ended by a tick exactly if, since the stream
  // opened and since the last frame accepted, the whole timeout has passed.
  lemma IdleTick(scope: Scope, opts: Options, t0: nat, expected: U64, events: seq<Event>, at: nat)
    ensures var (r, ending) := Read(scope, expected, FreshReader(opts, t0), events);
            ending.Pending? ==>
              OnEvent(scope, r, Tick(at)) ==
              if 0 < opts.idleTimeout && LastTime(t0, r.log) + opts.idleTimeout <= at
              then Stop(r, Abandoned(IdleAt(at))) else Continue(r)
  {
    FreshConsistent(scope, opts, t0);
    ReadClock(scope, expected, FreshReader(opts, t0), t0, events);
    ReadKeeps(scope, opts, expected, FreshReader(opts, t0), events);
    var (r, ending) := Read(scope, expected, FreshReader(opts, t0), events);
    if ending.Pending? {
      OtherEventMeans(scope, opts, r, Tick(at), t0);
    }
  }

  // ------------------------------------------------------------- the whole read

  // While the read waits, what has arrived is not enough: no RequestStart, or
  // fewer bytes than expected. And nothing has arrived that ends it.
  lemma {:induction false} WaitingMeans(scope: Scope, opts: Options, expected: U64, r: Reader, events: seq<Event>)
    requires Consistent(scope, opts, r) && Reading(r)
    ensures var (r', ending) := Read(scope, expected, r, events);
            ending.Pending? ==>
              && (LastHead(r'.log).None? || |Assemble(r'.log)| < expected || |Assemble(r'.log)| > MAX_U64)
              && (forall e :: e in events ==> !e.ContextDone? && !e.ChannelClosed?)
    decreases |events|
  {
    if r.partial.head.Some? && r.partial.received >= expected {
      assert Complete(r.partial, expected);
    } else if events == [] {
    } else {
      EventKeeps(scope, opts, r, events[0]);
      match OnEvent(scope, r, events[0])
      case Continue(r') =>
        WaitingMeans(scope, opts, expected, r', events[1..]);
        assert events == [events[0]] + events[1..];
      case Stop(_, _) =>
    }
  }

  lemma StillWaiting(scope: Scope, opts: Options, t0: nat, expected: U64, events: seq<Event>)
    ensures var (r, ending) := Read(scope, expected, FreshReader(opts, t0), events);
            ending.Pending? ==>
              && (LastHead(r.log).None? || |Assemble(r.log)| < expected || |Assemble(r.log)| > MAX_U64)
              && (forall e :: e in events ==> !e.ContextDone? && !e.ChannelClosed?)
  {
    FreshConsistent(scope, opts, t0);
    WaitingMeans(scope, opts, expected, FreshReader(opts, t0), events);
  }

  // The head in the last RequestStart.
  function LastStart(frames: seq<Frame>): Option<RequestHead> {
    if frames == [] then None
    else
      var last := frames[|frames| - 1];
      if last.Frame? && last.payload.RequestStart? then Some(last.payload.head) else LastStart(frames[..|frames| - 1])
  }

  predicate Enough(frames: seq<Frame>, expected: U64) {
    LastStart(frames).Some? && |DataBytes(frames)| >= expected
  }

  // The first k frames are the first that are enough.
  ghost predicate FirstEnough(frames: seq<Frame>, expected: U64, k: nat) {
    k <= |frames| && EnoughAt(frames, expected, k) && NotBefore(frames, expected, k)
  }

  ghost predicate NotBefore(frames: seq<Frame>, expected: U64, k: nat)
    requires k <= |frames|
  {
    forall j :: 0 <= j < k ==> !EnoughAt(frames, expected, j)
  }

  predicate EnoughAt(frames: seq<Frame>, expected: U64, j: nat)
    requires j <= |frames|
  {
    Enough(frames[..j], expected)
  }

  // The frames arrive, one after the other.
  ghost predicate InOrder(events: seq<Event>, frames: seq<Frame>) {
    && |events| == |frames|
    && forall i :: 0 <= i < |frames| ==> events[i].Arrives? && events[i].frame == frames[i]
  }

  ghost predicate AllBenign(frames: seq<Frame>) {
    forall i :: 0 <= i < |frames| ==> Benign(frames[i])
  }

  // The reader has logged the first i frames, and none of them was a reference.
  ghost predicate HasRead(r: Reader, frames: seq<Frame>, i: nat) {
    && i <= |frames| && FramesOf(r.log) == frames[..i]
    && forall j :: 0 <= j < |r.log| ==> r.log[j].resolved.None?
  }

  lemma {:induction false} HeadsAgree(log: seq<Entry>)
    ensures LastHead(log) == LastStart(FramesOf(log))
  {
    if log == [] {
    } else {
      var init := log[..|log| - 1];
      HeadsAgree(init);
      assert log == init + [log[|log| - 1]];
      FramesOfSnoc(init, log[|log| - 1]);
      assert (FramesOf(init) + [log[|log| - 1].frame])[..|init|] == FramesOf(init);
    }
  }

  lemma CompleteIsEnough(scope: Scope, opts: Options, r: Reader, frames: seq<Frame>, i: nat, expected: U64)
    requires Consistent(scope, opts, r) && HasRead(r, frames, i) && |DataBytes(frames[..i])| <= MAX_U64
    ensures Complete(r.partial, expected) <==> EnoughAt(frames, expected, i)
    ensures r.partial.head == LastStart(frames[..i]) && r.partial.body == DataBytes(frames[..i])
  {
    HeadsAgree(r.log);
    AssembleWithoutReferences(r.log);
  }

  lemma ReadsNext(scope: Scope, opts: Options, r: Reader, frames: seq<Frame>, i: nat, e: Event) returns (r': Reader)
    requires Consistent(scope, opts, r) && Reading(r) && HasRead(r, frames, i)
    requires ValidStream(opts, frames) && AllBenign(frames) && i < |frames|
    requires e.Arrives? && e.frame == frames[i]
    ensures OnEvent(scope, r, e) == Continue(r')
    ensures Consistent(scope, opts, r') && Reading(r') && HasRead(r', frames, i + 1)
  {
    ValidStreamPrefix(opts, frames, i + 1);
    assert frames[..i + 1] == frames[..i] + [frames[i]];
    FrameMeans(scope, opts, r, e.frame, e.download, e.at);
    EventKeeps(scope, opts, r, e);
    r' := OnEvent(scope, r, e).reader;
    FramesOfSnoc(r.log, Logged(scope, r.log, e.frame, e.download, e.at));
  }

  // The outcome of the honest run: the head and the bytes of the first frames
  // that are enough.
  ghost predicate Delivers(frames: seq<Frame>, expected: U64, ending: Ending, k: nat) {
    && FirstEnough(frames, expected, k)
    && ending == Ready(LastStart(frames[..k]).value, DataBytes(frames[..k]))
  }

  // The read has gone through i frames; the others are about to arrive.
  ghost predicate Halfway(
    scope: Scope, opts: Options, expected: U64, r: Reader, frames: seq<Frame>, i: nat, events: seq<Event>)
  {
    && Consistent(scope, opts, r) && Reading(r) && HasRead(r, frames, i)
    && ValidStream(opts, frames) && AllBenign(frames) && Enough(frames, expected)
    && InOrder(events, frames[i..]) && NotBefore(frames, expected, i)
  }

  lemma EndsHere(
    scope: Scope, opts: Options, expected: U64, r: Reader, frames: seq<Frame>, i: nat, events: seq<Event>)
    requires Halfway(scope, opts, expected, r, frames, i, events)
    ensures Complete(r.partial, expected) <==> EnoughAt(frames, expected, i)
    ensures Complete(r.partial, expected) ==> Delivers(frames, expected, Read(scope, expected, r, events).1, i)
    ensures !Complete(r.partial, expected) ==> events != [] && i < |frames|
  {
    ValidStreamPrefix(opts, frames, i);
    ValidStreamBounds(opts, frames[..i]);
    CompleteIsEnough(scope, opts, r, frames, i, expected);
    assert frames[..|frames|] == frames;
  }

  lemma GoesOn(
    scope: Scope, opts: Options, expected: U64, r: Reader, frames: seq<Frame>, i: nat, events: seq<Event>)
    returns (r': Reader)
    requires Halfway(scope, opts, expected, r, frames, i, events)
    requires !EnoughAt(frames, expected, i) && i < |frames| && events != []
    ensures OnEvent(scope, r, events[0]) == Continue(r')
    ensures Halfway(scope, opts, expected, r', frames, i + 1, events[1..])
  {
    InOrderNext(events, frames, i);
    r' := ReadsNext(scope, opts, r, frames, i, events[0]);
    NotBeforeNext(frames, expected, i);
  }

  lemma InOrderNext(events: seq<Event>, frames: seq<Frame>, i: nat)
    requires i < |frames| && InOrder(events, frames[i..])
    ensures events != [] && events[0].Arrives? && events[0].frame == frames[i]
    ensures InOrder(events[1..], frames[i + 1..])
  {
    assert frames[i..][0] == frames[i] && frames[i..][1..] == frames[i + 1..];
  }

  lemma NotBeforeNext(frames: seq<Frame>, expected: U64, i: nat)
    requires i < |frames| && NotBefore(frames, expected, i) && !EnoughAt(frames, expected, i)
    ensures NotBefore(frames, expected, i + 1)
  {
  }

  lemma {:induction false} ReadOn(
    scope: Scope, opts: Options, expected: U64, r: Reader, frames: seq<Frame>, i: nat, events: seq<Event>)
    returns (k: nat)
    requires Halfway(scope, opts, expected, r, frames, i, events)
    ensures Delivers(frames, expected, Read(scope, expected, r, events).1, k)
    decreases |events|
  {
    EndsHere(scope, opts, expected, r, frames, i, events);
    k := i;
    if !Complete(r.partial, expected) {
      var r' := GoesOn(scope, opts, expected, r, frames, i, events);
      k := ReadOn(scope, opts, expected, r', frames, i + 1, events[1..]);
    }
  }

  // A body that arrives is delivered: an honest stream that holds a RequestStart
  // and at least the expected bytes, read frame by frame, ends with the head and
  // the bytes of its first frames that are enough; and if it holds exactly the
  // expected bytes, with all of them.
  lemma HonestBody(scope: Scope, opts: Options, t0: nat, expected: U64, frames: seq<Frame>, events: seq<Event>)
    returns (k: nat)
    requires ValidStream(opts, frames) && AllBenign(frames) && InOrder(events, frames)
    requires LastStart(frames).Some? && |DataBytes(frames)| >= expected
    ensures var ending := Read(scope, expected, FreshReader(opts, t0), events).1;
            && Delivers(frames, expected, ending, k)
            && (|DataBytes(frames)| == expected ==> ending.body == DataBytes(frames))
  {
    FreshConsistent(scope, opts, t0);
    assert frames[0..] == frames;
    k := ReadOn(scope, opts, expected, FreshReader(opts, t0), frames, 0, events);
    DataBytesMonotone(frames, k);
  }
}
