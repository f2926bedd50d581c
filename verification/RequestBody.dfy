// egress/assignment.go: requestBodyState and readRequestBody, which turn the
// frames of the request stream into a request head and body.
//
// The reader's `log` lists the frames its validator accepted, in order. The
// body, the head and the byte count are specified from the log alone.

module RequestBody {
  import opened Frames
  import opened StreamValidator
  import BodyReference
  import Naming

  datatype Scope = Scope(deploymentId: string, requestId: string, hasResolver: bool)

  // An accepted frame; `resolved` is the content a body reference was replaced by.
  datatype Entry = Entry(frame: Frame, resolved: Option<seq<Byte>>, at: nat)

  datatype Partial = Partial(
    head: Option<RequestHead>,
    body: seq<Byte>,
    received: U64,
    failure: Option<ErrorInfo>)

  datatype Reader = Reader(validator: Validator, partial: Partial, log: seq<Entry>)

  // What the select statement of the read loop may deliver.
  datatype Event =
    | ContextDone
    | ChannelClosed
    | Tick(at: nat)
    | Arrives(frame: Frame, download: BodyReference.Download, at: nat)

  datatype Why = ContextEnded | Closed | IdleAt(at: nat) | BadFrame

  // Pending: the events ran out while the loop was still waiting.
  datatype Ending =
    | Ready(head: RequestHead, body: seq<Byte>)
    | Failed(info: ErrorInfo)
    | Abandoned(why: Why)
    | Pending

  const SCOPE_MISMATCH := ErrorInfo(BodyRefUnavailable, "body_ref_scope_mismatch")

  function ExpectedBytes(expectedUploadBytes: int): (expected: U64)
    requires expectedUploadBytes <= BodyReference.MAX_INT64
    ensures expectedUploadBytes <= expected && (expected == 0 || expected == expectedUploadBytes)
  {
    if expectedUploadBytes > 0 then expectedUploadBytes else 0
  }

  function ObjectKey(ref: Reference): string {
    if ref.s3.None? then "" else ref.s3.value.objectKey
  }

  predicate InScope(scope: Scope, ref: Reference) {
    Naming.KeyScoped(ObjectKey(ref), scope.deploymentId, scope.requestId)
  }

  // ------------------------------------------------------ what a log amounts to

  function FramesOf(log: seq<Entry>): (frames: seq<Frame>)
    ensures |frames| == |log|
  {
    seq(|log|, i requires 0 <= i < |log| => log[i].frame)
  }

  // The content of the last resolved reference, then the data accepted since.
  function Assemble(log: seq<Entry>): seq<Byte> {
    if log == [] then []
    else
      var last := log[|log| - 1];
      if last.resolved.Some? then last.resolved.value
      else Assemble(log[..|log| - 1]) + last.frame.Bytes()
  }

  function LastHead(log: seq<Entry>): Option<RequestHead> {
    if log == [] then None
    else
      var last := log[|log| - 1].frame;
      if last.Frame? && last.payload.RequestStart? then Some(last.payload.head)
      else LastHead(log[..|log| - 1])
  }

  lemma FramesOfSnoc(log: seq<Entry>, e: Entry)
    ensures FramesOf(log + [e]) == FramesOf(log) + [e.frame]
  {
  }

  lemma AssembleSnoc(log: seq<Entry>, e: Entry)
    ensures Assemble(log + [e]) ==
            if e.resolved.Some? then e.resolved.value else Assemble(log) + e.frame.Bytes()
    ensures LastHead(log + [e]) ==
            if e.frame.Frame? && e.frame.payload.RequestStart? then Some(e.frame.payload.head) else LastHead(log)
  {
    assert (log + [e])[..|log|] == log;
  }

  // Entry k is the last that was resolved from a reference.
  ghost predicate LastResolved(log: seq<Entry>, k: nat) {
    && k < |log| && log[k].resolved.Some?
    && forall i :: k < i < |log| ==> log[i].resolved.None?
  }

  // The data after entry k, one entry further.
  lemma TailBytes(log: seq<Entry>, k: nat)
    requires k + 1 < |log|
    ensures var n := |log| - 1;
            DataBytes(FramesOf(log[k + 1..])) == DataBytes(FramesOf(log[..n][k + 1..])) + log[n].frame.Bytes()
  {
    var n := |log| - 1;
    var tail := log[..n][k + 1..];
    assert log[k + 1..] == tail + [log[n]];
    FramesOfSnoc(tail, log[n]);
    DataBytesSnoc(FramesOf(tail), log[n].frame);
  }

  lemma {:induction false} AssembleFromLastReference(log: seq<Entry>, k: nat)
    requires LastResolved(log, k)
    ensures Assemble(log) == log[k].resolved.value + DataBytes(FramesOf(log[k + 1..]))
  {
    var n := |log| - 1;
    if k == n {
      assert FramesOf(log[k + 1..]) == [];
    } else {
      AssembleFromLastReference(log[..n], k);
      TailBytes(log, k);
      SeqAssoc(log[k].resolved.value, DataBytes(FramesOf(log[..n][k + 1..])), log[n].frame.Bytes());
    }
  }

  lemma {:induction false} AssembleWithoutReferences(log: seq<Entry>)
    requires forall i :: 0 <= i < |log| ==> log[i].resolved.None?
    ensures Assemble(log) == DataBytes(FramesOf(log))
  {
    if log == [] {
    } else {
      var n := |log| - 1;
      AssembleWithoutReferences(log[..n]);
      assert log == log[..n] + [log[n]];
      FramesOfSnoc(log[..n], log[n]);
      DataBytesSnoc(FramesOf(log[..n]), log[n].frame);
    }
  }

  // ------------------------------------------------------------ one frame

  datatype Effect = Effect(partial: Partial, resolved: Option<seq<Byte>>, ok: bool)

  function ApplyBodyRef(scope: Scope, p: Partial, ref: Reference, download: BodyReference.Download): Effect {
    if p.head.None? || !scope.hasResolver then Effect(p, None, false)
    else if !InScope(scope, ref) then Effect(p.(failure := Some(SCOPE_MISMATCH)), None, false)
    else
      match download
      case Failure(info) => Effect(p.(failure := Some(info)), None, false)
      case Body(body) => Effect(p.(body := body, received := Wrap64(|body|)), Some(body), true)
  }

  // The effect of a frame the validator has accepted.
  function Apply(scope: Scope, p: Partial, f: Frame, download: BodyReference.Download): Effect
    requires f.HasPayload()
  {
    match f.payload
    case RequestStart(head) => Effect(p.(head := Some(head)), None, true)
    case Data(_, data) => Effect(p.(body := p.body + data, received := Wrap64(p.received + |data|)), None, true)
    case BodyRef(ref) => ApplyBodyRef(scope, p, ref, download)
    case Credit(_, _) => Effect(p, None, true)
    case _ => Effect(p, None, false)
  }

  function AcceptFrame(scope: Scope, r: Reader, f: Frame, download: BodyReference.Download, now: nat): (Reader, bool) {
    var (outcome, v) := AcceptStep(r.validator, f, now);
    if outcome == Duplicate then (r, true)
    else if outcome != Accepted then (r, false)
    else
      var effect := Apply(scope, r.partial, f, download);
      (Reader(v, effect.partial, r.log + [Entry(f, effect.resolved, now)]), effect.ok)
  }

  // ------------------------------------------------------------- the loop

  predicate Complete(p: Partial, expected: U64) {
    p.head.Some? && p.received >= expected
  }

  function EndingOf(p: Partial, why: Why): Ending {
    if p.failure.Some? then Failed(p.failure.value) else Abandoned(why)
  }

  datatype Progress = Continue(reader: Reader) | Stop(reader: Reader, ending: Ending)

  // One round of the select statement.
  function OnEvent(scope: Scope, r: Reader, e: Event): Progress {
    match e
    case ContextDone => Stop(r, Abandoned(ContextEnded))
    case ChannelClosed => Stop(r, EndingOf(r.partial, Closed))
    case Tick(at) => if r.validator.IdleExpired(at) then Stop(r, Abandoned(IdleAt(at))) else Continue(r)
    case Arrives(f, download, at) =>
      var (r', ok) := AcceptFrame(scope, r, f, download, at);
      if ok then Continue(r') else Stop(r', EndingOf(r'.partial, BadFrame))
  }

  function Read(scope: Scope, expected: U64, r: Reader, events: seq<Event>): (Reader, Ending)
    decreases |events|
  {
    if Complete(r.partial, expected) then (r, Ready(r.partial.head.value, r.partial.body))
    else if events == [] then (r, Pending)
    else
      match OnEvent(scope, r, events[0])
      case Continue(r') => Read(scope, expected, r', events[1..])
      case Stop(r', ending) => (r', ending)
  }

  // ------------------------------------------------------------- invariants

  // Every reference in the log was resolved after a RequestStart, within scope.
  ghost predicate ReferencesLegitimate(scope: Scope, log: seq<Entry>) {
    forall i :: 0 <= i < |log| ==> LegitimateAt(scope, log, i)
  }

  ghost predicate LegitimateAt(scope: Scope, log: seq<Entry>, i: nat)
    requires i < |log|
  {
    Legitimate(scope, log[..i], log[i])
  }

  ghost predicate Legitimate(scope: Scope, before: seq<Entry>, e: Entry) {
    e.resolved.Some? ==>
      && e.frame.IsBodyRef()
      && scope.hasResolver
      && LastHead(before).Some?
      && InScope(scope, e.frame.payload.ref)
  }

  lemma LegitimateSnoc(scope: Scope, log: seq<Entry>, e: Entry)
    requires ReferencesLegitimate(scope, log) && Legitimate(scope, log, e)
    ensures ReferencesLegitimate(scope, log + [e])
  {
    forall i | 0 <= i < |log + [e]|
      ensures LegitimateAt(scope, log + [e], i)
    {
      assert (log + [e])[..i] == log[..i];
      assert log[..|log|] == log;
      assert i < |log| ==> LegitimateAt(scope, log, i);
    }
  }

  ghost predicate Consistent(scope: Scope, opts: Options, r: Reader) {
    && Tracks(r.validator, opts, FramesOf(r.log))
    && r.partial.body == Assemble(r.log)
    && r.partial.head == LastHead(r.log)
    && (|r.partial.body| <= MAX_U64 ==> r.partial.received == |r.partial.body|)
    && ReferencesLegitimate(scope, r.log)
  }

  // The reader is still at the head of the loop.
  ghost predicate Reading(r: Reader) {
    r.partial.failure.None? && !r.validator.terminal
  }

  function FreshReader(opts: Options, t0: nat): Reader {
    Reader(Fresh(opts, t0), Partial(None, [], 0, None), [])
  }

  lemma ApplyConsistent(scope: Scope, opts: Options, r: Reader, f: Frame, download: BodyReference.Download, now: nat)
    requires Consistent(scope, opts, r)
    requires AcceptStep(r.validator, f, now).0 == Accepted
    ensures Consistent(scope, opts, AcceptFrame(scope, r, f, download, now).0)
  {
    var effect := Apply(scope, r.partial, f, download);
    var e := Entry(f, effect.resolved, now);
    AcceptIffExtends(r.validator, opts, FramesOf(r.log), f, now);
    FramesOfSnoc(r.log, e);
    AssembleSnoc(r.log, e);
    LegitimateSnoc(scope, r.log, e);
  }

  lemma AcceptFrameKeeps(scope: Scope, opts: Options, r: Reader, f: Frame, download: BodyReference.Download, now: nat)
    requires Consistent(scope, opts, r) && Reading(r)
    ensures var (r', ok) := AcceptFrame(scope, r, f, download, now);
            && Consistent(scope, opts, r')
            && (ok ==> Reading(r'))
  {
    if AcceptStep(r.validator, f, now).0 == Accepted {
      ApplyConsistent(scope, opts, r, f, download, now);
    }
    KeepsReading(scope, r, f, download, now);
  }

  // A frame that does not stop the loop records no failure and is not terminal.
  lemma KeepsReading(scope: Scope, r: Reader, f: Frame, download: BodyReference.Download, now: nat)
    requires Reading(r)
    ensures var (r', ok) := AcceptFrame(scope, r, f, download, now); ok ==> Reading(r')
  {
  }

  // The reader stopped on a body reference that followed a RequestStart and
  // was out of scope or could not be resolved.
  ghost predicate FailedOn(scope: Scope, r: Reader, info: ErrorInfo) {
    && r.partial.failure == Some(info)
    && r.log != []
    && var last := r.log[|r.log| - 1];
       && last.frame.IsBodyRef() && last.resolved.None?
       && LastHead(r.log).Some?
       && (!InScope(scope, last.frame.payload.ref) ==> info == SCOPE_MISMATCH)
  }

  lemma FrameFailure(scope: Scope, opts: Options, r: Reader, f: Frame, download: BodyReference.Download, now: nat)
    requires Consistent(scope, opts, r) && Reading(r)
    ensures var (r', ok) := AcceptFrame(scope, r, f, download, now);
            r'.partial.failure.Some? ==> !ok && FailedOn(scope, r', r'.partial.failure.value)
  {
    if AcceptStep(r.validator, f, now).0 == Accepted {
      var effect := Apply(scope, r.partial, f, download);
      AssembleSnoc(r.log, Entry(f, effect.resolved, now));
    }
  }

  lemma EventKeeps(scope: Scope, opts: Options, r: Reader, e: Event)
    requires Consistent(scope, opts, r) && Reading(r)
    ensures var p := OnEvent(scope, r, e);
            && Consistent(scope, opts, p.reader)
            && (p.Continue? ==> Reading(p.reader))
            && (p.Stop? ==> !p.ending.Ready? && !p.ending.Pending?)
            && (p.Stop? && p.ending.Failed? <==> p.reader.partial.failure.Some?)
            && (p.Stop? && p.ending.Failed? ==> FailedOn(scope, p.reader, p.ending.info))
  {
    if e.Arrives? {
      AcceptFrameKeeps(scope, opts, r, e.frame, e.download, e.at);
      FrameFailure(scope, opts, r, e.frame, e.download, e.at);
    }
  }

  lemma {:induction false} ReadKeeps(scope: Scope, opts: Options, expected: U64, r: Reader, events: seq<Event>)
    requires Consistent(scope, opts, r) && Reading(r)
    ensures var (r', ending) := Read(scope, expected, r, events);
            && Consistent(scope, opts, r')
            && (ending.Ready? || ending.Pending? ==> Reading(r'))
            && (ending.Ready? ==> Complete(r'.partial, expected)
                                  && ending == Ready(r'.partial.head.value, r'.partial.body))
    decreases |events|
  {
    if Complete(r.partial, expected) || events == [] {
    } else {
      EventKeeps(scope, opts, r, events[0]);
      match OnEvent(scope, r, events[0])
      case Continue(r') => ReadKeeps(scope, opts, expected, r', events[1..]);
      case Stop(_, _) =>
    }
  }

  // ------------------------------------------------------------ main results

  lemma FreshConsistent(scope: Scope, opts: Options, t0: nat)
    ensures Consistent(scope, opts, FreshReader(opts, t0)) && Reading(FreshReader(opts, t0))
  {
    FreshTracks(opts, t0);
  }

  // Whatever arrives, a body that is delivered belongs to a valid stream of
  // accepted frames 1..k: its head is the last RequestStart among them, it
  // holds at least the expected number of bytes, and it is the last resolved
  // reference's content followed by the data accepted since.
  lemma ReadyBody(scope: Scope, opts: Options, t0: nat, expected: U64, events: seq<Event>)
    ensures var (r, ending) := Read(scope, expected, FreshReader(opts, t0), events);
            && ValidStream(opts, FramesOf(r.log))
            && ReferencesLegitimate(scope, r.log)
            && (ending.Ready? ==>
                  && LastHead(r.log) == Some(ending.head)
                  && ending.body == Assemble(r.log)
                  && expected <= |ending.body|)
  {
    FreshConsistent(scope, opts, t0);
    ReadKeeps(scope, opts, expected, FreshReader(opts, t0), events);
  }

  // While no reference has been resolved, the body is the accepted data in
  // number order, its length is the validator's offset, and offset and credit
  // share out the initial credit.
  lemma BodyWithoutReferences(scope: Scope, opts: Options, t0: nat, expected: U64, events: seq<Event>)
    requires var log := Read(scope, expected, FreshReader(opts, t0), events).0.log;
             forall i :: 0 <= i < |log| ==> log[i].resolved.None?
    ensures var (r, ending) := Read(scope, expected, FreshReader(opts, t0), events);
            && r.partial.body == DataBytes(FramesOf(r.log))
            && r.partial.received == |r.partial.body| == r.validator.offset
            && r.validator.offset + r.validator.credit == opts.initialCredit
            && (ending.Ready? ==> expected <= |ending.body| <= opts.initialCredit)
  {
    FreshConsistent(scope, opts, t0);
    ReadKeeps(scope, opts, expected, FreshReader(opts, t0), events);
    AssembleWithoutReferences(Read(scope, expected, FreshReader(opts, t0), events).0.log);
  }

  // With references: the body is the content of the last one resolved followed
  // by exactly the data accepted since, and that reference came after a
  // RequestStart and was in scope.
  lemma BodyWithReferences(scope: Scope, opts: Options, t0: nat, expected: U64, events: seq<Event>, k: nat)
    requires LastResolved(Read(scope, expected, FreshReader(opts, t0), events).0.log, k)
    ensures var r := Read(scope, expected, FreshReader(opts, t0), events).0;
            && r.partial.body == r.log[k].resolved.value + DataBytes(FramesOf(r.log[k + 1..]))
            && r.log[k].frame.IsBodyRef() && InScope(scope, r.log[k].frame.payload.ref)
            && LastHead(r.log[..k]).Some?
  {
    FreshConsistent(scope, opts, t0);
    ReadKeeps(scope, opts, expected, FreshReader(opts, t0), events);
    var log := Read(scope, expected, FreshReader(opts, t0), events).0.log;
    AssembleFromLastReference(log, k);
    assert LegitimateAt(scope, log, k);
  }

  // A failure is recorded exactly when the read ends with it.
  lemma {:induction false} FailureEndsRead(scope: Scope, opts: Options, expected: U64, r: Reader, events: seq<Event>)
    requires Consistent(scope, opts, r) && Reading(r)
    ensures var (r', ending) := Read(scope, expected, r, events);
            && (ending.Failed? <==> r'.partial.failure.Some?)
            && (ending.Failed? ==> FailedOn(scope, r', ending.info))
    decreases |events|
  {
    if Complete(r.partial, expected) || events == [] {
    } else {
      EventKeeps(scope, opts, r, events[0]);
      match OnEvent(scope, r, events[0])
      case Continue(r') => FailureEndsRead(scope, opts, expected, r', events[1..]);
      case Stop(_, _) =>
    }
  }

  // -------------------------------------------------- replays and the idle clock

  // The arrival of a frame that was accepted before, while there are sequence
  // numbers left.
  predicate Replays(r: Reader, e: Event) {
    e.Arrives? && e.frame in FramesOf(r.log) && |r.log| < MAX_U64
  }

  // `events` without the arrivals of frames that had already been accepted.
  function DropReplays(scope: Scope, expected: U64, r: Reader, events: seq<Event>): seq<Event>
    decreases |events|
  {
    if Complete(r.partial, expected) || events == [] then events
    else if Replays(r, events[0]) then DropReplays(scope, expected, r, events[1..])
    else [events[0]] + DropReplays(scope, expected, OnEvent(scope, r, events[0]).reader, events[1..])
  }

  // Replays of accepted frames, however many and wherever they arrive, change
  // nothing: the state, the result and the idle decision are those of the run
  // without them.
  lemma {:induction false} ReplaysInvisible(scope: Scope, opts: Options, expected: U64, r: Reader, events: seq<Event>)
    requires Consistent(scope, opts, r) && Reading(r)
    ensures Read(scope, expected, r, DropReplays(scope, expected, r, events)) == Read(scope, expected, r, events)
    decreases |events|
  {
    if Complete(r.partial, expected) || events == [] {
    } else {
      var rest := events[1..];
      if Replays(r, events[0]) {
        ReplayOutcome(r.validator, opts, FramesOf(r.log), events[0].frame, events[0].at);
        ReplaysInvisible(scope, opts, expected, r, rest);
      } else {
        EventKeeps(scope, opts, r, events[0]);
        var p := OnEvent(scope, r, events[0]);
        var kept := DropReplays(scope, expected, p.reader, rest);
        assert ([events[0]] + kept)[1..] == kept;
        if p.Continue? {
          ReplaysInvisible(scope, opts, expected, p.reader, rest);
        }
      }
    }
  }

  // Exactly as long as there are numbers left: a replay that arrives after
  // 2^64 - 1 frames reads as a gap and ends the read.
  lemma ReplayContinues(scope: Scope, opts: Options, r: Reader, e: Event)
    requires Consistent(scope, opts, r) && Reading(r)
    requires e.Arrives? && e.frame in FramesOf(r.log)
    ensures OnEvent(scope, r, e) == if |r.log| < MAX_U64 then Continue(r) else Stop(r, Abandoned(BadFrame))
  {
    ReplayOutcome(r.validator, opts, FramesOf(r.log), e.frame, e.at);
    ValidStreamBounds(opts, FramesOf(r.log));
  }

  predicate Timed(e: Event) {
    e.Tick? || e.Arrives?
  }

  // The clock starts at or after `t` and never runs backwards.
  predicate ClockOk(t: nat, events: seq<Event>)
    decreases |events|
  {
    if events == [] then true
    else if !Timed(events[0]) then ClockOk(t, events[1..])
    else t <= events[0].at && ClockOk(events[0].at, events[1..])
  }

  // Everything in the log happened no later than the validator's last activity.
  ghost predicate ActivityCovers(r: Reader, t0: nat) {
    && t0 <= r.validator.lastActivity
    && forall i :: 0 <= i < |r.log| ==> r.log[i].at <= r.validator.lastActivity
  }

  // Giving up as idle means that no frame was accepted, and the stream not
  // opened, within the whole timeout: duplicates and rejected frames never
  // move the clock.
  lemma {:induction false} IdleMeansNothingAccepted(
    scope: Scope, expected: U64, r: Reader, t0: nat, t: nat, events: seq<Event>)
    requires ActivityCovers(r, t0) && r.validator.lastActivity <= t && ClockOk(t, events)
    ensures var (r', ending) := Read(scope, expected, r, events);
            ending.Abandoned? && ending.why.IdleAt? ==>
              && 0 < r.validator.idleTimeout
              && t0 + r.validator.idleTimeout <= ending.why.at
              && forall i :: 0 <= i < |r'.log| ==> r'.log[i].at + r.validator.idleTimeout <= ending.why.at
    decreases |events|
  {
    if Complete(r.partial, expected) || events == [] {
    } else {
      var e := events[0];
      match OnEvent(scope, r, e)
      case Continue(r') => IdleMeansNothingAccepted(scope, expected, r', t0, if Timed(e) then e.at else t, events[1..]);
      case Stop(_, _) =>
    }
  }

  // ---------------------------------------------------- the stateful reader

  class BodyState {
    const scope: Scope
    const expected: U64
    const checker: Checker
    var head: Option<RequestHead>
    var body: seq<Byte>
    var received: U64
    var failure: Option<ErrorInfo>
    ghost var log: seq<Entry>

    ghost function State(): Reader
      reads this, checker
    {
      Reader(checker.State(), Partial(head, body, received, failure), log)
    }

    ghost predicate Valid()
      reads this, checker
    {
      checker.Valid() && checker.history == FramesOf(log) && Consistent(scope, checker.opts, State())
    }

    constructor (scope: Scope, expectedUploadBytes: int, checker: Checker)
      requires expectedUploadBytes <= BodyReference.MAX_INT64
      requires checker.Valid() && checker.history == []
      ensures Valid() && this.checker == checker && this.scope == scope
      ensures expected == ExpectedBytes(expectedUploadBytes)
      ensures State() == Reader(checker.State(), Partial(None, [], 0, None), [])
    {
      this.scope := scope;
      this.checker := checker;
      expected := 0;
      if expectedUploadBytes > 0 {
        expected := expectedUploadBytes;
      }
      head := None;
      body := [];
      received := 0;
      failure := None;
      log := [];
    }

    method IsComplete() returns (complete: bool)
      ensures complete <==> head.Some? && expected <= received
    {
      return head.Some? && received >= expected;
    }

    method Accept(f: Frame, download: BodyReference.Download, now: nat) returns (ok: bool)
      requires Valid()
      modifies this, checker
      ensures Valid()
      ensures (State(), ok) == AcceptFrame(scope, old(State()), f, download, now)
    {
      ghost var before := State();
      var outcome := checker.Accept(f, now);
      if outcome == Duplicate {
        return true;
      }
      if outcome != Accepted {
        return false;
      }
      ApplyConsistent(scope, checker.opts, before, f, download, now);
      ghost var effect := Apply(scope, before.partial, f, download);
      FramesOfSnoc(log, Entry(f, effect.resolved, now));
      log := log + [Entry(f, effect.resolved, now)];
      ok := ApplyPayload(f, download);
    }

    method ApplyPayload(f: Frame, download: BodyReference.Download) returns (ok: bool)
      requires f.HasPayload()
      modifies `head, `body, `received, `failure
      ensures var effect := Apply(scope, old(Partial(head, body, received, failure)), f, download);
              Partial(head, body, received, failure) == effect.partial && ok == effect.ok
    {
      ok := true;
      match f.payload
      case RequestStart(h) =>
        head := Some(h);
      case Data(_, data) =>
        body := body + data;
        received := Wrap64(received + |data|);
      case BodyRef(ref) =>
        ok := AcceptBodyRef(ref, download);
      case Credit(_, _) =>
      case _ =>
        ok := false;
    }

    method AcceptBodyRef(ref: Reference, download: BodyReference.Download) returns (ok: bool)
      modifies `body, `received, `failure
      ensures var effect := ApplyBodyRef(scope, old(Partial(head, body, received, failure)), ref, download);
              Partial(head, body, received, failure) == effect.partial && ok == effect.ok
    {
      if head.None? || !scope.hasResolver {
        return false;
      }
      if !InScope(scope, ref) {
        failure := Some(SCOPE_MISMATCH);
        return false;
      }
      if download.Failure? {
        failure := Some(download.info);
        return false;
      }
      body := download.body;
      received := Wrap64(|download.body|);
      return true;
    }

    // One round of the select statement; `stop` ends the loop.
    method HandleEvent(e: Event) returns (stop: bool, ending: Ending)
      requires Valid()
      modifies this, checker
      ensures Valid()
      ensures OnEvent(scope, old(State()), e) == if stop then Stop(State(), ending) else Continue(State())
    {
      match e
      case ContextDone =>
        return true, Abandoned(ContextEnded);
      case ChannelClosed =>
        return true, EndingOf(Partial(head, body, received, failure), Closed);
      case Tick(at) =>
        return checker.State().IdleExpired(at), Abandoned(IdleAt(at));
      case Arrives(f, download, at) =>
        var ok := Accept(f, download, at);
        return !ok, EndingOf(Partial(head, body, received, failure), BadFrame);
    }

    method ReadRequestBody(events: seq<Event>) returns (ending: Ending)
      requires Valid()
      modifies this, checker
      ensures Valid()
      ensures (State(), ending) == Read(scope, expected, old(State()), events)
    {
      var i := 0;
      var complete := IsComplete();
      while !complete
        invariant Valid() && i <= |events|
        invariant complete == Complete(State().partial, expected)
        invariant Read(scope, expected, State(), events[i..]) == Read(scope, expected, old(State()), events)
        decreases |events| - i, !complete
      {
        if i == |events| {
          return Pending;
        }
        assert events[i..][1..] == events[i + 1..];
        var stop, result := HandleEvent(events[i]);
        if stop {
          return result;
        }
        i := i + 1;
        complete := IsComplete();
      }
      return Ready(head.value, body);
    }
  }
}
