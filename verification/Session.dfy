// egress/runtime.go: Run, registerWithRetry, runSession, runHeartbeatLoop.
//
// The loops are driven by a script: each blocking operation takes the next
// moment of it, which says how the operation came out. A run whose script is
// used up is still blocked there (Pending), so the theorems speak of every
// finite part of every run. What the loops do is written to a log.

module Session {
  import opened Frames

  const REGISTER_BACKOFF_FLOOR := 1 // seconds
  const REGISTER_BACKOFF_MAX := 30
  const REGISTER_BACKOFF_FACTOR := 2

  datatype Reply = Ok(session: string) | Rejected | Failed

  // `active` and `draining` are what the worker reports when asked; `timer`
  // says which case a select takes when the context has ended too; `built`
  // whether the registration request, or the worker, could be built.
  datatype Moment = Moment(reply: Reply, timer: bool, ctxDone: bool, active: U32, draining: bool, built: bool)

  // `own` in a heartbeat: whether the worker itself reports that it is draining.
  // Skipped: an attempt to register whose request could not be built, so that
  // nothing was sent.
  datatype Act =
    | Ready(on: bool)
    | Registered(answer: Reply)
    | Skipped
    | Waited(seconds: nat)
    | ServeStarted(session: string)
    | ServeReturned(session: string)
    | Beat(session: string, active: U32, available: U32, own: bool, draining: bool, answer: Reply)

  function CapacityFromConcurrency(active: U32, max: U32): (available: U32)
    ensures active + available == max || (available == 0 && (max == 0 || active > max))
  {
    if max == 0 then 0 else if active >= max then 0 else max - active
  }

  function NextBackoff(backoff: nat): nat {
    if backoff * REGISTER_BACKOFF_FACTOR <= REGISTER_BACKOFF_MAX then backoff * REGISTER_BACKOFF_FACTOR
    else REGISTER_BACKOFF_MAX
  }

  // ------------------------------------------------------------ the protocol

  // What an observer of the log knows. `rejected`: the last heartbeat was.
  // `farewell`: the heartbeat sent after leaving readiness.
  datatype Phase = Phase(
    session: Option<string>,
    ready: bool,
    serving: bool,
    rejected: bool,
    farewell: bool,
    mustWait: bool,
    backoff: nat)

  const OUTSIDE := Phase(None, false, false, false, false, false, REGISTER_BACKOFF_FLOOR)

  predicate Succeeds(answer: Reply) {
    answer.Ok? && answer.session != ""
  }

  predicate Allowed(max: U32, p: Phase, act: Act) {
    match act
    case Ready(on) =>
      if on then p.session.Some? && !p.ready && !p.serving && !p.farewell
      else if p.serving then p.ready && !p.rejected
      else p.session.Some? || p == OUTSIDE
    case Registered(_) => p.session.None? && !p.ready && !p.serving && !p.mustWait
    case Skipped => p.session.None? && !p.ready && !p.serving && !p.mustWait
    case Waited(seconds) => p.session.None? && p.mustWait && seconds == p.backoff
    case ServeStarted(id) => p.session == Some(id) && p.ready && !p.serving && !p.rejected
    case ServeReturned(id) => p.session == Some(id) && p.serving && (p.rejected || p.farewell)
    case Beat(id, active, available, own, draining, _) =>
      && p.session == Some(id) && p.serving && !p.rejected && !p.farewell
      && available == CapacityFromConcurrency(active, max)
      && draining == (own || !p.ready)
  }

  function After(p: Phase, act: Act): Phase {
    match act
    case Ready(on) => if on || p.serving then p.(ready := on) else OUTSIDE
    case Registered(answer) =>
      if Succeeds(answer) then OUTSIDE.(session := Some(answer.session)) else p.(mustWait := true)
    case Skipped => p.(mustWait := true)
    case Waited(_) => p.(mustWait := false, backoff := NextBackoff(p.backoff))
    case ServeStarted(_) => p.(serving := true)
    case ServeReturned(_) => p.(serving := false)
    case Beat(_, _, _, _, _, answer) => p.(rejected := p.ready && answer.Rejected?, farewell := !p.ready)
  }

  // The phase a log leads to, or None if it breaks the protocol.
  function Watch(max: U32, log: seq<Act>): Option<Phase> {
    if log == [] then Some(OUTSIDE)
    else
      var before := Watch(max, log[..|log| - 1]);
      var act := log[|log| - 1];
      if before.Some? && Allowed(max, before.value, act) then Some(After(before.value, act)) else None
  }

  predicate Lawful(max: U32, log: seq<Act>) {
    Watch(max, log).Some?
  }

  // ------------------------------------------------------------- the runtime

  datatype Attempt = Session(id: string) | GaveUp | AttemptPending

  datatype SessionEnd = Lost | Over | FactoryFailed | SessionPending

  datatype Result = Nil | Err | Pending

  // A heartbeat that says the worker is draining, sent while not ready, was
  // the last thing before Serve returned.
  predicate SaidFarewell(log: seq<Act>) {
    && |log| >= 4
    && log[|log| - 4] == Ready(false)
    && log[|log| - 3].Beat? && log[|log| - 3].draining
    && log[|log| - 2] == ServeReturned(log[|log| - 3].session)
    && log[|log| - 1] == Ready(false)
  }

  // Readiness may be left, and that ends the session.
  predicate CanLeave(max: U32, p: Phase) {
    Allowed(max, p, Ready(false)) && After(p, Ready(false)) == OUTSIDE
  }

  // The last session was registered, but no worker could be built for it.
  predicate NeverServed(log: seq<Act>) {
    |log| >= 2 && log[|log| - 2] == Ready(true) && log[|log| - 1] == Ready(false)
  }

  // The last session was lost: its heartbeat was rejected, Serve was waited for.
  predicate EndedLost(log: seq<Act>) {
    && |log| >= 4
    && log[|log| - 4] != Ready(false)
    && log[|log| - 3].Beat? && log[|log| - 3].answer.Rejected?
    && log[|log| - 2] == ServeReturned(log[|log| - 3].session)
    && log[|log| - 1] == Ready(false)
  }

  // The context has ended before moment n.
  predicate Done(script: seq<Moment>, n: nat)
    requires n <= |script|
  {
    n > 0 && (script[n - 1].ctxDone || Done(script, n - 1))
  }

  // A registration's moments, counted from the first, answer an attempt and end
  // a wait in turn. It is over at the first that brings a session, or by which
  // the context has ended.
  predicate Brings(m: Moment) {
    m.built && Succeeds(m.reply)
  }

  predicate Opens(script: seq<Moment>, from: nat, j: nat)
    requires from <= j < |script|
  {
    (j - from) % 2 == 0 && Brings(script[j])
  }

  predicate EndsRetry(script: seq<Moment>, from: nat, j: nat)
    requires from <= j < |script|
  {
    Opens(script, from, j) || Done(script, j + 1)
  }

  ghost predicate Retrying(script: seq<Moment>, from: nat, n: nat)
    requires n <= |script|
  {
    forall j :: from <= j < n ==> !EndsRetry(script, from, j)
  }

  // A session's moments answer a heartbeat and end a wait in turn. It is over at
  // the first heartbeat that went out and was rejected, or at the first wait
  // that ends because the context has.
  predicate Rejects(script: seq<Moment>, from: nat, j: nat)
    requires from <= j < |script|
  {
    (j - from) % 2 == 0 && script[j].reply.Rejected? && !Done(script, j)
  }

  predicate Quits(script: seq<Moment>, from: nat, j: nat)
    requires from <= j < |script|
  {
    (j - from) % 2 == 1 && Done(script, j + 1) && !script[j].timer
  }

  predicate EndsBeats(script: seq<Moment>, from: nat, j: nat)
    requires from <= j < |script|
  {
    Rejects(script, from, j) || Quits(script, from, j)
  }

  ghost predicate Beating(script: seq<Moment>, from: nat, n: nat)
    requires n <= |script|
  {
    forall j :: from <= j < n ==> !EndsBeats(script, from, j)
  }

  // How the heartbeats from moment `from` to n came to an end.
  ghost predicate BeatsEnd(r: SessionEnd, script: seq<Moment>, from: nat, n: nat)
    requires from <= n <= |script|
  {
    match r
    case Lost => from < n && Rejects(script, from, n - 1) && Beating(script, from, n - 1)
    case Over => from + 1 < n && Quits(script, from, n - 2) && Beating(script, from, n - 2)
    case SessionPending => n == |script| && (from < n ==> Beating(script, from, n - 1))
    case FactoryFailed => false
  }

  // One round of the select, begun at moment n: what it found of a wait, and
  // of a heartbeat after it.
  predicate RoundMeans(r: Option<SessionEnd>, script: seq<Moment>, n: nat, end: nat)
    requires n < end <= |script|
  {
    var quits := Done(script, n + 1) && !script[n].timer;
    match r
    case None => end == n + 2 && !quits && !(script[n + 1].reply.Rejected? && !Done(script, n + 1))
    case Some(Lost) => end == n + 2 && !quits && script[n + 1].reply.Rejected? && !Done(script, n + 1)
    case Some(Over) => end == n + 2 && quits
    case Some(SessionPending) => end == n + 1 == |script|
    case Some(FactoryFailed) => false
  }

  lemma RoundEnds(r: Option<SessionEnd>, script: seq<Moment>, from: nat, n: nat, end: nat)
    requires from <= n < end <= |script| && (n - from) % 2 == 1
    requires Beating(script, from, n) && RoundMeans(r, script, n, end)
    ensures if r.None? then Beating(script, from, end) else BeatsEnd(r.value, script, from, end)
  {
  }

  // The same for a registration: what an attempt and a wait leave to be said.
  lemma RetryingStep(script: seq<Moment>, from: nat, n: nat)
    requires from <= n < |script| && (n - from) % 2 == 0
    requires n == from || (Retrying(script, from, n - 1) && !Opens(script, from, n - 1))
    requires !Done(script, n)
    ensures Retrying(script, from, n) && (Opens(script, from, n) <==> Brings(script[n]))
    ensures !Brings(script[n]) && !Done(script, n + 1) ==> Retrying(script, from, n + 1)
    ensures n + 1 < |script| ==> !Opens(script, from, n + 1)
  {
  }

  // Serve's return does not end a session.
  lemma OutsideNotServing(max: U32, log: seq<Act>)
    requires Lawful(max, log) && Watch(max, log) == Some(OUTSIDE) && log != []
    ensures !log[|log| - 1].ServeReturned?
  {
  }

  class Runtime {
    const max: U32
    const script: seq<Moment>
    var at: nat
    var ready: bool
    var ctxDone: bool
    var log: seq<Act>

    ghost predicate Valid()
      reads this
    {
      Lawful(max, log) && Now().ready == ready && at <= |script| && ctxDone == Done(script, at)
    }

    ghost function Now(): Phase
      requires Lawful(max, log)
      reads this
    {
      Watch(max, log).value
    }

    constructor (max: U32, script: seq<Moment>)
      ensures this.max == max && this.script == script && at == 0 && log == [] && !ready && Valid()
    {
      this.max := max;
      this.script := script;
      at := 0;
      ready := false;
      ctxDone := false;
      log := [];
    }

    method Note(act: Act)
      requires Lawful(max, log) && Allowed(max, Now(), act)
      modifies `log
      ensures log == old(log) + [act]
      ensures Lawful(max, log) && Now() == After(old(Now()), act)
    {
      assert (log + [act])[..|log|] == log;
      log := log + [act];
    }

    method Take() returns (m: Moment)
      requires at < |script| && ctxDone == Done(script, at)
      modifies `at, `ctxDone
      ensures m == script[old(at)] && at == old(at) + 1 && ctxDone == Done(script, at)
      ensures ctxDone == (old(ctxDone) || m.ctxDone)
    {
      m := script[at];
      at := at + 1;
      ctxDone := ctxDone || m.ctxDone;
    }

    method SetReady(on: bool)
      requires Valid() && Allowed(max, Now(), Ready(on))
      modifies `ready, `log
      ensures Valid() && ready == on && log == old(log) + [Ready(on)] && Now() == After(old(Now()), Ready(on))
    {
      ready := on;
      Note(Ready(on));
    }

    // One attempt and the wait that follows it: None if there is to be another.
    method TryOnce(backoff: nat) returns (r: Option<Attempt>)
      requires Valid() && Now() == OUTSIDE.(backoff := backoff) && !ctxDone && at < |script|
      modifies `at, `ctxDone, `log
      ensures Valid() && |log| > 0 && !log[|log| - 1].Ready?
      ensures r.None? ==>
                && at == old(at) + 2 && !Brings(script[at - 2]) && !Done(script, at - 1)
                && !(Done(script, at) && !script[at - 1].timer)
                && Now() == OUTSIDE.(backoff := NextBackoff(backoff)) && |log| == |old(log)| + 2
      ensures r.Some? ==> at == old(at) + 1 || (at == old(at) + 2 && !Brings(script[at - 2]) && !Done(script, at - 1))
      ensures r.Some? && r.value.Session? ==>
                && at == old(at) + 1 && Brings(script[at - 1]) && r.value.id != ""
                && Now() == OUTSIDE.(session := Some(r.value.id))
                && log == old(log) + [Registered(Ok(r.value.id))]
      ensures r.Some? && !r.value.Session? ==> !Brings(script[old(at)]) && Now().session.None? && !Now().serving
      ensures |old(log)| < |log| && log[|old(log)|] ==
                if script[old(at)].built then Registered(script[old(at)].reply) else Skipped
      ensures r.Some? && r.value.GaveUp? ==> ctxDone && (at == old(at) + 2 ==> !script[at - 1].timer)
      ensures r.Some? && r.value.AttemptPending? ==> at == old(at) + 1 == |script| && !ctxDone && |log| == |old(log)| + 1
    {
      var m := Take();
      if m.built {
        Note(Registered(m.reply));
        if Succeeds(m.reply) {
          return Some(Session(m.reply.session));
        }
      } else {
        Note(Skipped);
      }
      if ctxDone {
        return Some(GaveUp);
      }
      if at == |script| {
        return Some(AttemptPending);
      }
      m := Take();
      if ctxDone && !m.timer {
        return Some(GaveUp);
      }
      Note(Waited(backoff));
      return None;
    }

    method RegisterWithRetry() returns (r: Attempt)
      requires Valid() && Now() == OUTSIDE
      modifies `at, `ctxDone, `log
      ensures Valid() && old(at) <= at && (old(ctxDone) ==> ctxDone && log == old(log))
      ensures r.Session? ==> Now() == OUTSIDE.(session := Some(r.id))
      ensures r.Session? ==> r.id != "" && log != [] && log[|log| - 1] == Registered(Ok(r.id))
      ensures r.Session? ==> old(at) < at && Opens(script, old(at), at - 1) && Retrying(script, old(at), at - 1)
      ensures r.GaveUp? ==> ctxDone && Now().session.None? && !Now().serving
      ensures r.GaveUp? && old(at) < at ==> !Opens(script, old(at), at - 1) && Retrying(script, old(at), at - 1)
      ensures r.GaveUp? ==> log == old(log) || (log != [] && !log[|log| - 1].Ready?)
      ensures r.AttemptPending? ==> at == |script| && Retrying(script, old(at), at)
      ensures !ctxDone ==> |log| - |old(log)| == at - old(at)
    {
      var backoff: nat := REGISTER_BACKOFF_FLOOR;
      while true
        invariant Valid() && Now() == OUTSIDE.(backoff := backoff)
        invariant old(at) <= at && (at - old(at)) % 2 == 0
        invariant !ctxDone ==> |log| - |old(log)| == at - old(at)
        invariant old(ctxDone) ==> ctxDone && log == old(log)
        invariant log == old(log) || (log != [] && !log[|log| - 1].Ready?)
        invariant old(at) < at ==> Retrying(script, old(at), at - 1) && !Opens(script, old(at), at - 1)
        decreases |script| - at
      {
        if ctxDone {
          return GaveUp;
        }
        if at == |script| {
          return AttemptPending;
        }
        RetryingStep(script, old(at), at);
        var attempt := TryOnce(backoff);
        if attempt.Some? {
          return attempt.value;
        }
        backoff := NextBackoff(backoff);
      }
    }

    // `cancellable` is false for the heartbeat sent without the context.
    method SendHeartbeat(id: string, draining: bool, cancellable: bool) returns (rejected: bool)
      requires Valid() && at < |script| && ready == !draining
      requires Now() == Up(id, ready)
      modifies `at, `ctxDone, `log
      ensures Valid() && at == old(at) + 1 && (old(ctxDone) ==> ctxDone)
      ensures cancellable && old(ctxDone) ==> !rejected && log == old(log)
      ensures !(cancellable && old(ctxDone)) ==>
                && log == old(log) + [Beat(id, script[old(at)].active, CapacityFromConcurrency(script[old(at)].active, max),
                                           script[old(at)].draining, draining || script[old(at)].draining, script[old(at)].reply)]
                && rejected == script[old(at)].reply.Rejected?
                && Now() == Up(id, ready).(rejected := ready && rejected, farewell := !ready)
    {
      var before := ctxDone;
      var m := Take();
      if cancellable && before {
        return false;
      }
      Note(Beat(id, m.active, CapacityFromConcurrency(m.active, max), m.draining, draining || m.draining, m.reply));
      return m.reply.Rejected?;
    }

    static function Up(id: string, ready: bool): Phase {
      OUTSIDE.(session := Some(id), ready := ready, serving := true)
    }

    // Served and ready, with a log that does not end in leaving readiness.
    ghost predicate Beats(id: string)
      reads this
    {
      Valid() && ready && Now() == Up(id, true) && log != [] && log[|log| - 1] != Ready(false)
    }

    // The heartbeat sent last was rejected.
    ghost predicate JustRejected(id: string)
      reads this
    {
      && Valid() && ready && Now() == Up(id, true).(rejected := true)
      && |log| >= 2 && log[|log| - 2] != Ready(false)
      && log[|log| - 1].Beat? && log[|log| - 1].session == id && log[|log| - 1].answer.Rejected?
    }

    // The context has ended, readiness was left and the farewell sent.
    ghost predicate JustLeft(id: string)
      reads this
    {
      && Valid() && !ready && ctxDone && Now() == Up(id, false).(farewell := true)
      && |log| >= 2 && log[|log| - 2] == Ready(false)
      && log[|log| - 1].Beat? && log[|log| - 1].draining && log[|log| - 1].session == id
    }

    // A heartbeat while ready.
    method BeatOnce(id: string) returns (rejected: bool)
      requires Beats(id) && at < |script|
      modifies `at, `ctxDone, `log
      ensures at == old(at) + 1 && rejected == (script[at - 1].reply.Rejected? && !Done(script, at - 1))
      ensures if rejected then JustRejected(id) else Beats(id)
      ensures if ctxDone then old(ctxDone) ==> log == old(log) else !old(ctxDone) && |log| == |old(log)| + 1
    {
      rejected := SendHeartbeat(id, false, true);
    }

    ghost predicate Ended(r: SessionEnd, id: string)
      reads this
    {
      match r
      case Lost => JustRejected(id)
      case Over => JustLeft(id)
      case _ => Valid()
    }

    // One round of the select: None if it goes on.
    method Tick(id: string) returns (r: Option<SessionEnd>)
      requires Beats(id) && at < |script|
      modifies `at, `ctxDone, `log, `ready
      ensures old(at) < at <= |script| && RoundMeans(r, script, old(at), at)
      ensures if r.None? then Beats(id) else Ended(r.value, id)
      ensures r.None? ==> at == old(at) + 2
      ensures at <= old(at) + 2 && (old(ctxDone) ==> ctxDone)
      ensures !ctxDone ==> |log| == |old(log)| + (at - old(at) - 1)
    {
      var m := Take();
      if ctxDone && !m.timer {
        SetReady(false);
        if at == |script| {
          return Some(SessionPending);
        }
        var _ := SendHeartbeat(id, true, false);
        return Some(Over);
      }
      if at == |script| {
        return Some(SessionPending);
      }
      var rejected := BeatOnce(id);
      return if rejected then Some(Lost) else None;
    }

    method RunHeartbeatLoop(id: string) returns (r: SessionEnd)
      requires Beats(id)
      modifies `at, `ctxDone, `log, `ready
      ensures Ended(r, id) && old(at) <= at <= |script| && BeatsEnd(r, script, old(at), at)
      // Every tick sends a heartbeat.
      ensures !ctxDone ==> 2 * (|log| - |old(log)|) - 1 <= at - old(at) <= 2 * (|log| - |old(log)|)
    {
      if at == |script| {
        return SessionPending;
      }
      var rejected := BeatOnce(id);
      if rejected {
        return Lost;
      }
      ghost var ticks := 0;
      while true
        invariant Beats(id)
        invariant 0 <= ticks && at == old(at) + 1 + 2 * ticks
        invariant !ctxDone ==> |log| == |old(log)| + 1 + ticks
        invariant Beating(script, old(at), at)
        decreases |script| - at
      {
        if at == |script| {
          return SessionPending;
        }
        ghost var n := at;
        var tick := Tick(id);
        RoundEnds(tick, script, old(at), n, at);
        ticks := ticks + 1;
        if tick.Some? {
          return tick.value;
        }
      }
    }

    method RunSession(id: string) returns (r: SessionEnd)
      requires Valid() && ready && Now() == Up(id, true).(serving := false)
      modifies `at, `ctxDone, `log, `ready
      ensures Valid() && old(at) <= at
      ensures !r.SessionPending? ==> CanLeave(max, Now()) && Now().session == Some(id)
      ensures r.Over? ==> ctxDone && SaidFarewell(log + [Ready(false)])
      ensures r.Lost? ==> Now().rejected && EndedLost(log + [Ready(false)])
      ensures r.FactoryFailed? ==> log == old(log)
      ensures r.SessionPending? ==> at == |script|
      ensures old(at) < |script| && !r.SessionPending? ==> (r.FactoryFailed? <==> !script[old(at)].built)
    {
      if at == |script| {
        return SessionPending;
      }
      var m := Take();
      if !m.built {
        return FactoryFailed;
      }
      Note(ServeStarted(id));
      r := RunHeartbeatLoop(id);
      if at == |script| {
        return SessionPending;
      }
      AwaitServe(id, r);
    }

    // The wait for Serve to return.
    method AwaitServe(id: string, r: SessionEnd)
      requires at < |script| && (r.Lost? || r.Over?) && Ended(r, id)
      modifies `at, `ctxDone, `log
      ensures Valid() && at == old(at) + 1
      ensures CanLeave(max, Now()) && Now().session == Some(id)
      ensures r.Over? ==> ctxDone && SaidFarewell(log + [Ready(false)])
      ensures r.Lost? ==> Now().rejected && EndedLost(log + [Ready(false)])
    {
      var _ := Take();
      Note(ServeReturned(id));
    }

    // A session from entering readiness to leaving it.
    method ServeSession(id: string) returns (r: SessionEnd)
      requires Valid() && Now() == OUTSIDE.(session := Some(id))
      modifies `at, `ctxDone, `log, `ready
      ensures Valid() && old(at) <= at
      ensures !r.SessionPending? ==> !ready && Now() == OUTSIDE
      ensures r.Over? ==> ctxDone && SaidFarewell(log)
      ensures r.Lost? ==> EndedLost(log)
      ensures r.FactoryFailed? ==> NeverServed(log)
      ensures r.SessionPending? ==> at == |script|
    {
      SetReady(true);
      r := RunSession(id);
      if r.SessionPending? {
        return;
      }
      SetReady(false);
    }

    // One round of the loop: None if it goes on to register again.
    method Round() returns (r: Option<Result>)
      requires Valid() && Now() == OUTSIDE
      modifies `at, `ctxDone, `log, `ready
      ensures Valid()
      ensures r.None? ==> Now() == OUTSIDE && old(at) < at && EndedLost(log)
      ensures r.Some? && !r.value.Pending? ==> !ready && !Now().serving && Now().session.None?
      ensures r == Some(Nil) ==> ctxDone && SaidFarewell(log)
      ensures r == Some(Err) ==> NeverServed(log) || (ctxDone && (log == old(log) || !SaidFarewell(log)))
      ensures r == Some(Pending) ==> at == |script|
    {
      var attempt := RegisterWithRetry();
      if attempt.AttemptPending? {
        return Some(Pending);
      }
      if attempt.GaveUp? {
        return Some(Err);
      }
      var end := ServeSession(attempt.id);
      match end
      case SessionPending => return Some(Pending);
      case FactoryFailed => return Some(Err);
      case Over => return Some(Nil);
      case Lost => return None;
    }

    // Whatever the other side answers and whenever the context ends, the log
    // keeps to the protocol. The return is nil exactly if a draining heartbeat
    // was sent and Serve waited for, and then the context had ended; an error
    // means that no worker could be built, or that the context ended before a
    // session was served to its end. No return leaves the worker ready.
    method Run(hasFactory: bool) returns (r: Result)
      requires Valid() && Now() == OUTSIDE
      modifies `at, `ctxDone, `log, `ready
      ensures Valid()
      ensures r.Nil? ==> ctxDone && SaidFarewell(log)
      ensures !r.Pending? ==> !ready && !Now().serving && Now().session.None?
      ensures r.Pending? ==> at == |script|
      ensures r.Err? && hasFactory ==> NeverServed(log) || (ctxDone && !SaidFarewell(log))
      ensures hasFactory && !r.Pending? && SaidFarewell(log) ==> r.Nil?
      ensures !hasFactory ==> r.Err? && log == old(log)
    {
      if !hasFactory {
        return Err;
      }
      if log != [] {
        OutsideNotServing(max, log);
      }
      SetReady(false);
      while true
        invariant Valid() && Now() == OUTSIDE && !SaidFarewell(log)
        decreases |script| - at
      {
        var round := Round();
        if round.Some? {
          return round.value;
        }
      }
    }
  }

  // ------------------------------------------------- what a lawful log means

  lemma {:induction false} LawfulPrefix(max: U32, log: seq<Act>, n: nat)
    requires Lawful(max, log) && n <= |log|
    ensures Lawful(max, log[..n])
  {
    if n == |log| {
      assert log[..n] == log;
    } else {
      LawfulPrefix(max, log[..|log| - 1], n);
      assert log[..|log| - 1][..n] == log[..n];
    }
  }

  lemma LawfulAt(max: U32, log: seq<Act>, i: nat)
    requires Lawful(max, log) && i < |log|
    ensures Lawful(max, log[..i]) && Allowed(max, Watch(max, log[..i]).value, log[i])
  {
    LawfulPrefix(max, log, i + 1);
    LawfulPrefix(max, log, i);
    assert log[..i + 1][..i] == log[..i];
  }

  predicate ReadyFlag(log: seq<Act>) {
    log != [] && (if log[|log| - 1].Ready? then log[|log| - 1].on else ReadyFlag(log[..|log| - 1]))
  }

  // Session `id` was opened by registration j, the last in the log.
  predicate OpenedAt(log: seq<Act>, j: nat, id: string) {
    && j < |log| && log[j] == Registered(Ok(id))
    && forall k :: j < k < |log| ==> !log[k].Registered?
  }

  // Since that registration, readiness has not been left.
  predicate UpSince(log: seq<Act>, j: nat, id: string) {
    OpenedAt(log, j, id) && forall k :: j < k < |log| ==> log[k] != Ready(false)
  }

  function ServesOpen(log: seq<Act>): int {
    if log == [] then 0
    else
      var last := log[|log| - 1];
      ServesOpen(log[..|log| - 1]) + (if last.ServeStarted? then 1 else if last.ServeReturned? then -1 else 0)
  }

  // Waits since the last registration that succeeded.
  function WaitsSince(log: seq<Act>): nat {
    if log == [] then 0
    else
      var last := log[|log| - 1];
      if last.Registered? && Succeeds(last.answer) then 0
      else WaitsSince(log[..|log| - 1]) + if last.Waited? then 1 else 0
  }

  function Backoff(k: nat): nat {
    if k == 0 then REGISTER_BACKOFF_FLOOR else NextBackoff(Backoff(k - 1))
  }

  function Pow2(k: nat): nat {
    if k == 0 then 1 else 2 * Pow2(k - 1)
  }

  lemma {:induction false} BackoffIsCappedDoubling(k: nat)
    ensures Backoff(k) == if k < 5 then Pow2(k) else REGISTER_BACKOFF_MAX
  {
    if k == 0 {
    } else {
      BackoffIsCappedDoubling(k - 1);
      assert Pow2(0) == 1 && Pow2(1) == 2 && Pow2(2) == 4 && Pow2(3) == 8 && Pow2(4) == 16;
    }
  }

  // What the phase records is what the log says.
  lemma {:induction false} PhaseMeans(max: U32, log: seq<Act>)
    requires Lawful(max, log)
    ensures var p := Watch(max, log).value;
            && p.ready == ReadyFlag(log)
            && (p.ready || p.serving ==> p.session.Some?)
            && ServesOpen(log) == (if p.serving then 1 else 0)
            && (p.session.Some? ==> p.session.value != "" && exists j: nat :: OpenedAt(log, j, p.session.value))
  {
    if log == [] {
    } else {
      var init, last := log[..|log| - 1], log[|log| - 1];
      PhaseMeans(max, init);
      var before, p := Watch(max, init).value, Watch(max, log).value;
      if p.session.Some? {
        if last.Registered? {
          assert OpenedAt(log, |log| - 1, p.session.value);
        } else {
          var j: nat :| OpenedAt(init, j, before.session.value);
          assert OpenedAt(log, j, p.session.value);
        }
      }
    }
  }

  // A session that is ready, or not yet.
  predicate NotLeft(p: Phase) {
    p.session.Some? && (p.ready || (!p.serving && !p.farewell))
  }

  lemma {:induction false} PhaseNotLeft(max: U32, log: seq<Act>)
    requires Lawful(max, log) && NotLeft(Watch(max, log).value)
    ensures exists j: nat :: UpSince(log, j, Watch(max, log).value.session.value)
  {
    if log == [] {
    } else {
      var init, last := log[..|log| - 1], log[|log| - 1];
      var id := Watch(max, log).value.session.value;
      if last.Registered? {
        assert UpSince(log, |log| - 1, id);
      } else {
        PhaseNotLeft(max, init);
        var j: nat :| UpSince(init, j, id);
        assert UpSince(log, j, id);
      }
    }
  }

  lemma {:induction false} PhaseBackoff(max: U32, log: seq<Act>)
    requires Lawful(max, log)
    ensures var p := Watch(max, log).value;
            p.backoff == Backoff(WaitsSince(log)) && (p.session.Some? ==> WaitsSince(log) == 0)
  {
    if log == [] {
    } else {
      PhaseBackoff(max, log[..|log| - 1]);
    }
  }

  // Every heartbeat carries the session of the latest registration, goes out
  // while that session is served, reports a capacity that adds up, and says that
  // the worker is draining exactly if it is or readiness has been left.
  lemma HeartbeatIsCurrent(max: U32, log: seq<Act>, i: nat)
    requires Lawful(max, log) && i < |log| && log[i].Beat?
    ensures exists j: nat :: OpenedAt(log[..i], j, log[i].session)
    ensures ServesOpen(log[..i]) == 1
    ensures max > 0 && log[i].active <= max ==> log[i].active + log[i].available == max
    ensures max == 0 || log[i].active > max ==> log[i].available == 0
    ensures log[i].draining <==> log[i].own || !ReadyFlag(log[..i])
  {
    LawfulAt(max, log, i);
    PhaseMeans(max, log[..i]);
  }

  // No registration is sent before every Serve started has returned, nor while
  // the worker reports ready.
  lemma ServeReturnsBeforeRegister(max: U32, log: seq<Act>, i: nat)
    requires Lawful(max, log) && i < |log| && log[i].Registered?
    ensures ServesOpen(log[..i]) == 0 && !ReadyFlag(log[..i])
  {
    LawfulAt(max, log, i);
    PhaseMeans(max, log[..i]);
  }

  // Ready means that the latest registration was accepted and that readiness
  // has not been left since.
  lemma ReadyOnlyInSession(max: U32, log: seq<Act>, n: nat)
    requires Lawful(max, log) && n <= |log| && ReadyFlag(log[..n])
    ensures exists j: nat, id: string :: id != "" && UpSince(log[..n], j, id)
  {
    LawfulPrefix(max, log, n);
    PhaseMeans(max, log[..n]);
    PhaseNotLeft(max, log[..n]);
    var id := Watch(max, log[..n]).value.session.value;
    var j: nat :| UpSince(log[..n], j, id);
  }

  // The k-th wait since the last success lasts 2^k seconds, 30 at most.
  lemma WaitLength(max: U32, log: seq<Act>, i: nat)
    requires Lawful(max, log) && i < |log| && log[i].Waited?
    ensures var k := WaitsSince(log[..i]);
            log[i].seconds == if k < 5 then Pow2(k) else 30
  {
    LawfulAt(max, log, i);
    PhaseBackoff(max, log[..i]);
    BackoffIsCappedDoubling(WaitsSince(log[..i]));
  }

  // The phase the next act of a lawful log leads to.
  lemma LawfulNext(max: U32, log: seq<Act>, i: nat)
    requires Lawful(max, log) && i < |log|
    ensures Lawful(max, log[..i]) && Lawful(max, log[..i + 1])
    ensures var p := Watch(max, log[..i]).value;
            Allowed(max, p, log[i]) && Watch(max, log[..i + 1]).value == After(p, log[i])
  {
    LawfulAt(max, log, i);
    LawfulPrefix(max, log, i + 1);
    assert log[..i + 1][..i] == log[..i];
  }

  // A heartbeat rejected while the worker was ready.
  predicate RejectedAt(log: seq<Act>, i: nat) {
    i < |log| && log[i].Beat? && log[i].answer.Rejected? && ReadyFlag(log[..i])
  }

  lemma ReadyIsFlag(max: U32, log: seq<Act>)
    requires Lawful(max, log)
    ensures Watch(max, log).value.ready == ReadyFlag(log)
  {
    PhaseMeans(max, log);
  }

  lemma RejectedPhase(max: U32, log: seq<Act>, i: nat)
    requires Lawful(max, log) && RejectedAt(log, i)
    ensures Lawful(max, log[..i + 1])
    ensures var p := Watch(max, log[..i + 1]).value;
            p.session == Some(log[i].session) && p.ready && p.serving && p.rejected && !p.farewell
  {
    LawfulNext(max, log, i);
    ReadyIsFlag(max, log[..i]);
  }

  // What follows a rejected heartbeat, exactly: Serve is waited for, and only
  // then is readiness left. So the worker reports ready from the rejection
  // until Serve has returned, and no longer.
  lemma RejectionOutlived(max: U32, log: seq<Act>, i: nat)
    requires Lawful(max, log) && RejectedAt(log, i)
    ensures ReadyFlag(log[..i + 1])
    ensures i + 1 < |log| ==> log[i + 1] == ServeReturned(log[i].session) && ReadyFlag(log[..i + 2])
    ensures i + 2 < |log| ==> log[i + 2] == Ready(false) && !ReadyFlag(log[..i + 3])
    ensures i + 3 < |log| ==> log[i + 3].Registered? || log[i + 3] == Skipped || log[i + 3] == Ready(false)
  {
    RejectedPhase(max, log, i);
    ReadyIsFlag(max, log[..i + 1]);
    if i + 1 < |log| {
      LawfulNext(max, log, i + 1);
      ReadyIsFlag(max, log[..i + 2]);
    }
    if i + 2 < |log| {
      LawfulNext(max, log, i + 2);
      ReadyIsFlag(max, log[..i + 3]);
    }
    if i + 3 < |log| {
      LawfulNext(max, log, i + 3);
    }
  }

  // Such a log: rejected on its first heartbeat, ready while Serve drains.
  lemma ReadyWhileDraining(max: U32, id: string)
    requires id != ""
    ensures var log := [Ready(false), Registered(Ok(id)), Ready(true), ServeStarted(id),
                        Beat(id, 0, max, false, false, Rejected), ServeReturned(id)];
            Lawful(max, log) && RejectedAt(log, 4) && ReadyFlag(log)
  {
    var log := [Ready(false), Registered(Ok(id)), Ready(true), ServeStarted(id),
                Beat(id, 0, max, false, false, Rejected), ServeReturned(id)];
    var l1 := [log[0]];
    var l2 := l1 + [log[1]];
    var l3 := l2 + [log[2]];
    var l4 := l3 + [log[3]];
    var l5 := l4 + [log[4]];
    WatchSnoc(max, [], log[0]);
    assert [] + [log[0]] == l1;
    WatchSnoc(max, l1, log[1]);
    WatchSnoc(max, l2, log[2]);
    WatchSnoc(max, l3, log[3]);
    WatchSnoc(max, l4, log[4]);
    WatchSnoc(max, l5, log[5]);
    assert log == l5 + [log[5]] && log[..4] == l4;
    PhaseMeans(max, log);
    PhaseMeans(max, log[..4]);
  }

  lemma WatchSnoc(max: U32, log: seq<Act>, act: Act)
    requires Lawful(max, log) && Allowed(max, Watch(max, log).value, act)
    ensures Watch(max, log + [act]) == Some(After(Watch(max, log).value, act))
  {
    assert (log + [act])[..|log|] == log;
  }

  predicate RejectedOrOver(p: Phase) {
    p.session.None? || p.rejected
  }

  lemma StepStaysRejected(max: U32, p: Phase, act: Act)
    requires Allowed(max, p, act) && !act.Registered? && RejectedOrOver(p)
    ensures RejectedOrOver(After(p, act))
  {
  }

  // From a rejected heartbeat on, either the session is still marked rejected
  // or it is over.
  lemma {:induction false} StaysRejected(max: U32, log: seq<Act>, i: nat, n: nat)
    requires Lawful(max, log) && RejectedAt(log, i) && i < n <= |log|
    requires forall k :: i < k < n ==> !log[k].Registered?
    ensures Lawful(max, log[..n])
    ensures RejectedOrOver(Watch(max, log[..n]).value)
    decreases n
  {
    if n == i + 1 {
      RejectedPhase(max, log, i);
    } else {
      StaysRejected(max, log, i, n - 1);
      LawfulNext(max, log, n - 1);
      StepStaysRejected(max, Watch(max, log[..n - 1]).value, log[n - 1]);
    }
  }

  // A session whose heartbeat was rejected sends no more of them.
  lemma RejectionEndsSession(max: U32, log: seq<Act>, i: nat, k: nat)
    requires Lawful(max, log) && RejectedAt(log, i) && i < k < |log| && log[k].Beat?
    ensures exists j :: i < j < k && log[j].Registered?
  {
    if forall j :: i < j < k ==> !log[j].Registered? {
      StaysRejected(max, log, i, k);
      LawfulAt(max, log, k);
    }
  }
}
