// Download credit under concurrency: the stream loop grants, the executor's
// goroutine takes, and a queue of 32 grants lies between them. Every scheduling
// of the two is a sequence of the steps below; a step that is not enabled
// leaves the state as it is.

module CreditFlow {
  import opened Frames
  import opened StreamValidator
  import opened CreditGate
  import opened Download
  import opened ResponseEmitter

  // `granting` is the amount the stream loop is enqueuing, while it is;
  // `pending` what is left of the payload in hand, `offered` all bytes ever
  // handed to the sender, `sent` those published and `dropped` those given up.
  datatype Flow = Flow(
    validator: Validator,
    log: seq<Frame>,
    granting: Option<U64>,
    queue: seq<U64>,
    gate: Gate,
    pending: nat,
    offered: nat,
    sent: nat,
    dropped: nat)

  datatype Step =
    | Arrive(frame: Frame, at: nat)  // the stream loop receives a frame
    | Enqueue                        // its grant goes into the queue
    | Offer(bytes: nat)              // the executor sends a payload
    | Receive                        // the sender, out of credit, takes a grant
    | Chunk                          // the sender publishes a chunk
    | GiveUp                         // the sender, out of credit, sees the context end

  function NewFlow(v: Validator, initial: U64): Flow {
    Flow(v, [], None, [], NewGate(initial), 0, 0, 0, 0)
  }

  predicate Enabled(s: Flow, step: Step) {
    match step
    case Arrive(_, _) => s.granting.None?
    case Enqueue => s.granting.Some? && |s.queue| < GRANT_QUEUE_CAPACITY
    case Offer(_) => s.pending == 0
    case Receive => s.pending > 0 && s.gate == Gate(0) && s.queue != []
    case Chunk => s.pending > 0 && s.gate != Gate(0)
    case GiveUp => s.pending > 0 && s.gate == Gate(0)
  }

  function Next(s: Flow, step: Step): Flow {
    if !Enabled(s, step) then s
    else
      match step
      case Arrive(f, at) =>
        var (outcome, v) := AcceptStep(s.validator, f, at);
        if outcome != Accepted then s
        else
          s.(validator := v, log := s.log + [f],
             granting := if GrantOf(f) != [] && s.gate.Gate? then Some(GrantOf(f)[0]) else None)
      case Enqueue => s.(queue := s.queue + [s.granting.value], granting := None)
      case Offer(n) => s.(pending := n, offered := s.offered + n)
      case Receive => s.(gate := Gate(Wrap64(s.gate.credit + s.queue[0])), queue := s.queue[1..])
      case Chunk =>
        var (n, g) := TakeCredit(s.gate, Min(s.pending, FRAME_DATA_BYTES));
        s.(gate := g, pending := s.pending - n, sent := s.sent + n)
      case GiveUp => s.(pending := 0, dropped := s.dropped + s.pending)
  }

  function Run(s: Flow, steps: seq<Step>): Flow {
    if steps == [] then s else Next(Run(s, steps[..|steps| - 1]), steps[|steps| - 1])
  }

  function InHand(s: Flow): nat {
    if s.granting.Some? then s.granting.value else 0
  }

  // Everything granted so far: the amounts in the accepted Credit frames.
  function Granted(s: Flow): nat {
    Sum(GrantsOf(s.log))
  }

  // The grants that have reached the queue.
  function Enqueued(s: Flow): int {
    Granted(s) - InHand(s)
  }

  // Conservation: initial credit and everything granted is either published,
  // still credit, in the queue, or in the stream loop's hand.
  ghost predicate Balanced(s: Flow, opts: Options, history: seq<Frame>, initial: U64) {
    && Tracks(s.validator, opts, history + s.log)
    && (s.gate.Gate? <==> initial != 0)
    && (s.gate.Gate? ==> initial + Granted(s) == s.sent + s.gate.credit + Sum(s.queue) + InHand(s))
    && |s.queue| <= GRANT_QUEUE_CAPACITY
    && (s.granting.Some? ==> s.granting.value > 0)
    && (forall i :: 0 <= i < |s.queue| ==> s.queue[i] > 0)
    && s.offered == s.sent + s.pending + s.dropped
  }

  lemma ArriveBalanced(s: Flow, opts: Options, history: seq<Frame>, initial: U64, f: Frame, at: nat)
    requires Balanced(s, opts, history, initial) && s.granting.None?
    ensures Balanced(Next(s, Arrive(f, at)), opts, history, initial)
  {
    if AcceptStep(s.validator, f, at).0 == Accepted {
      AcceptedKeeps(s.validator, opts, history, s.log, f, at);
      GrantedSnoc(s.log, f);
    }
  }

  lemma NextBalanced(s: Flow, opts: Options, history: seq<Frame>, initial: U64, step: Step)
    requires Balanced(s, opts, history, initial)
    ensures Balanced(Next(s, step), opts, history, initial)
  {
    if Enabled(s, step) {
      match step
      case Arrive(f, at) => ArriveBalanced(s, opts, history, initial, f, at);
      case Enqueue => SumSnoc(s.queue, s.granting.value);
      case Receive => SumCons(s.queue);
      case Offer(_) =>
      case Chunk =>
      case GiveUp =>
    }
  }

  lemma {:induction false} RunBalanced(v: Validator, opts: Options, history: seq<Frame>, initial: U64, steps: seq<Step>)
    requires Tracks(v, opts, history)
    ensures Balanced(Run(NewFlow(v, initial), steps), opts, history, initial)
  {
    if steps == [] {
      assert history + [] == history;
    } else {
      RunBalanced(v, opts, history, initial, steps[..|steps| - 1]);
      NextBalanced(Run(NewFlow(v, initial), steps[..|steps| - 1]), opts, history, initial, steps[|steps| - 1]);
    }
  }

  // Download credit is counted exactly once. In every schedule and over any
  // arrivals, the bytes published are covered by the initial credit plus the
  // grants of the distinct frames accepted since the body phase; and those
  // frames form one valid stream with the ones before, so none is there twice.
  lemma DownloadBounded(v: Validator, opts: Options, history: seq<Frame>, initial: U64, steps: seq<Step>)
    requires Tracks(v, opts, history) && initial > 0
    ensures var s := Run(NewFlow(v, initial), steps);
            && s.sent <= initial + Sum(GrantsOf(s.log))
            && ValidStream(opts, history + s.log)
  {
    RunBalanced(v, opts, history, initial, steps);
  }

  // A send is given up only when all the credit that reached the sender has been
  // published: the rest of it is in the queue or in the stream loop's hand.
  lemma GivesUpOnlySpent(v: Validator, opts: Options, history: seq<Frame>, initial: U64, steps: seq<Step>, s: Flow)
    requires Tracks(v, opts, history) && s == Run(NewFlow(v, initial), steps)
    requires Enabled(s, GiveUp)
    ensures initial > 0 && s.sent + Sum(s.queue) + InHand(s) == initial + Sum(GrantsOf(s.log))
  {
    RunBalanced(v, opts, history, initial, steps);
  }

  // The sender waits for a grant that is not there.
  predicate SenderBlocked(s: Flow) {
    s.pending > 0 && s.gate == Gate(0) && s.queue == []
  }

  predicate GranterBlocked(s: Flow) {
    s.granting.Some? && |s.queue| == GRANT_QUEUE_CAPACITY
  }

  // Whenever the sender is blocked or has nothing in hand, and has given
  // nothing up, it has published the smaller of what it was offered and all the
  // credit that has reached the gate.
  lemma AmountWhenQuiet(v: Validator, opts: Options, history: seq<Frame>, initial: U64, steps: seq<Step>)
    requires Tracks(v, opts, history) && initial > 0
    ensures Settled(Run(NewFlow(v, initial), steps), initial)
  {
    RunBalanced(v, opts, history, initial, steps);
    BalancedSettled(Run(NewFlow(v, initial), steps), opts, history, initial);
  }

  ghost predicate Settled(s: Flow, initial: U64) {
    s.dropped == 0 && (SenderBlocked(s) || s.pending == 0) ==> s.sent == Min(s.offered, initial + Enqueued(s))
  }

  lemma BalancedSettled(s: Flow, opts: Options, history: seq<Frame>, initial: U64)
    requires Balanced(s, opts, history, initial) && initial > 0
    ensures Settled(s, initial)
  {
  }

  // No step between the queue's two ends is possible.
  predicate Standstill(s: Flow) {
    !Enabled(s, Enqueue) && !Enabled(s, Receive) && !Enabled(s, Chunk)
  }

  // The loop blocked on a full queue and the sender blocked on an empty one do
  // not coexist, so neither ever waits for the other. A standstill that leaves
  // a grant undelivered has a sender with nothing to send: only the executor's
  // next payload could free the stream loop then.
  lemma NoMutualBlock(s: Flow)
    requires |s.queue| <= GRANT_QUEUE_CAPACITY
    ensures !(GranterBlocked(s) && SenderBlocked(s))
    ensures Standstill(s) <==>
            && (s.pending == 0 || SenderBlocked(s))
            && (s.granting.None? || GranterBlocked(s))
    ensures Standstill(s) && s.granting.Some? ==> s.pending == 0
  {
    assert s.gate.Gate? && s.gate.credit == 0 ==> s.gate == Gate(0);
  }

  // ------------------------------------------------- credit reaches the sender

  // The sender has bytes in hand, and there is credit for it in the gate, in
  // the queue or in the stream loop's hand.
  predicate Supplied(s: Flow) {
    s.pending > 0 && (s.gate != Gate(0) || s.queue != [] || s.granting.Some?)
  }

  // How many steps that credit is away.
  function Rank(s: Flow): nat {
    if s.gate != Gate(0) then 0 else if s.queue != [] then 1 else 2
  }

  // The step that brings it nearer, or spends it.
  predicate Advances(s: Flow, step: Step) {
    match Rank(s)
    case 0 => step.Chunk?
    case 1 => step.Receive?
    case _ => step.Enqueue?
  }

  function AdvanceCount(s: Flow, steps: seq<Step>): nat {
    if steps == [] then 0
    else
      var init, last := steps[..|steps| - 1], steps[|steps| - 1];
      AdvanceCount(s, init) + if Advances(Run(s, init), last) then 1 else 0
  }

  ghost predicate NoGiveUp(steps: seq<Step>) {
    forall i :: 0 <= i < |steps| ==> !steps[i].GiveUp?
  }

  predicate CanAdvance(s: Flow) {
    Enabled(s, match Rank(s) case 0 => Chunk case 1 => Receive case _ => Enqueue)
  }

  ghost predicate Positive(s: Flow) {
    && (s.granting.Some? ==> s.granting.value > 0)
    && (forall i :: 0 <= i < |s.queue| ==> s.queue[i] > 0)
  }

  lemma ArrivePositive(s: Flow, f: Frame, at: nat)
    requires Positive(s)
    ensures var s' := Next(s, Arrive(f, at));
            && Positive(s') && s'.pending == s.pending && s'.sent == s.sent && s'.gate == s.gate && s'.queue == s.queue
            && (s.granting.Some? ==> s' == s)
  {
  }

  // Any step but giving up either publishes, or leaves the sender supplied, no
  // further away, and one step nearer if it is the step that advances.
  lemma StepAdvances(s: Flow, step: Step)
    requires Positive(s) && Supplied(s) && !step.GiveUp?
    ensures var s' := Next(s, step);
            && Positive(s') && s'.sent >= s.sent
            && (s'.sent == s.sent ==>
                  Supplied(s') && Rank(s') + (if Advances(s, step) then 1 else 0) <= Rank(s))
  {
    match step
    case Arrive(f, at) => ArrivePositive(s, f, at);
    case _ =>
  }

  lemma SuppliedCanAdvance(s: Flow)
    requires Supplied(s)
    ensures CanAdvance(s)
  {
  }

  lemma {:induction false} RunAdvances(s: Flow, more: seq<Step>)
    requires Positive(s) && Supplied(s) && NoGiveUp(more)
    ensures var s' := Run(s, more);
            && s'.sent >= s.sent
            && (s'.sent == s.sent ==>
                  Positive(s') && Supplied(s') && AdvanceCount(s, more) + Rank(s') <= Rank(s))
  {
    if more == [] {
    } else {
      var init, last := more[..|more| - 1], more[|more| - 1];
      RunAdvances(s, init);
      RunMonotone(Run(s, init), last);
      if Run(s, init).sent == s.sent {
        StepAdvances(Run(s, init), last);
      }
    }
  }

  lemma RunMonotone(s: Flow, step: Step)
    ensures Next(s, step).sent >= s.sent
  {
  }

  // In every schedule in which it does not give up, a supplied sender goes on
  // to publish: until it does, the step that brings the credit nearer can be
  // taken, and it can be taken at most twice before the one that publishes.
  lemma {:induction false} GrantReachesSender(
    v: Validator, opts: Options, history: seq<Frame>, initial: U64, steps: seq<Step>, s: Flow, more: seq<Step>)
    requires Tracks(v, opts, history)
    requires s == Run(NewFlow(v, initial), steps) && Supplied(s) && NoGiveUp(more)
    ensures Run(s, more).sent >= s.sent
    ensures Run(s, more).sent == s.sent ==>
              CanAdvance(Run(s, more)) && AdvanceCount(s, more) + Rank(Run(s, more)) <= Rank(s) <= 2
  {
    RunBalanced(v, opts, history, initial, steps);
    RunAdvances(s, more);
    if Run(s, more).sent == s.sent {
      SuppliedCanAdvance(Run(s, more));
    }
  }
}
