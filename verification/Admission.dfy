// egress/assignment.go: the Worker's admission and drain code, with
// EvaluateAssignment of egress/types.go.
//
// The lock guards three fields, the books. A handler checks the books in one
// critical section and enters a reservation in another; releases, drain
// decisions and the end of Serve happen in between. The assignment
// subscription delivers its messages one at a time, so there is one handler.

module Admission {
  import opened Frames

  datatype AckCode = Accepted | RejectedError | RejectedDraining | RejectedUnsupported | RejectedCapacity

  // `valid` stands for the outcome of the generated Validate method.
  datatype Request = Request(valid: bool, mode: RequestMode)

  datatype Capacity = Capacity(draining: bool, active: U32, max: U32, modes: seq<RequestMode>)
  {
    predicate HasCapacity() {
      max == 0 || active < max
    }

    predicate SupportsMode(mode: RequestMode) {
      modes == [] || mode in modes
    }
  }

  function EvaluateAssignment(req: Option<Request>, c: Capacity): (code: AckCode)
    ensures code == Accepted <==>
              && req.Some? && req.value.valid && !c.draining
              && (c.modes == [] || req.value.mode in c.modes)
              && (c.max == 0 || c.active < c.max)
    ensures code == RejectedError <==> req.None? || !req.value.valid
    ensures code == RejectedDraining ==> c.draining
    ensures code == RejectedUnsupported ==> !c.draining && c.modes != [] && req.value.mode !in c.modes
    ensures code == RejectedCapacity ==>
              !c.draining && (c.modes == [] || req.value.mode in c.modes) && 0 < c.max <= c.active
  {
    if req.None? || !req.value.valid then RejectedError
    else if c.draining then RejectedDraining
    else if !c.SupportsMode(req.value.mode) then RejectedUnsupported
    else if !c.HasCapacity() then RejectedCapacity
    else Accepted
  }

  // An assignment as it arrives; an undecodable one carries no request.
  datatype Assignment = Assignment(id: string, req: Option<Request>)

  // The answer to an assignment that nothing interleaves with, when `load`
  // requests are in flight; `prepared` says whether its stream could be set up.
  function Answer(l: Limits, draining: bool, load: nat, a: Assignment, prepared: bool): AckCode {
    if a.req.None? || !a.req.value.valid then RejectedError
    else if draining then RejectedDraining
    else if l.modes != [] && a.req.value.mode !in l.modes then RejectedUnsupported
    else if l.max != 0 && load >= l.max then RejectedCapacity
    else if !prepared then RejectedError
    else Accepted
  }

  // The serial number tells apart requests that share an id, as their cancel
  // functions do in the source.
  datatype Task = Task(id: string, serial: nat)

  datatype Books = Books(active: U32, draining: bool, cancels: map<string, Task>)

  function Wrap32(n: nat): U32 {
    if n < 0x1_0000_0000 then n else n % 0x1_0000_0000
  }

  // Go's uint32 decrement.
  function Pred32(n: U32): U32 {
    if n == 0 then 0xFFFF_FFFF else n - 1
  }

  function Entered(b: Books, t: Task): Books {
    b.(active := Wrap32(b.active + 1), cancels := b.cancels[t.id := t])
  }

  function Struck(b: Books, t: Task): Books {
    b.(active := Pred32(b.active), cancels := b.cancels - {t.id})
  }

  datatype Limits = Limits(max: U32, modes: seq<RequestMode>)

  function CapacityOf(l: Limits, b: Books): Capacity {
    Capacity(b.draining, b.active, l.max, l.modes)
  }

  // ------------------------------------------------------------- the worker

  class Worker {
    const limits: Limits
    var active: U32
    var draining: bool
    var cancels: map<string, Task>

    function State(): Books
      reads this
    {
      Books(active, draining, cancels)
    }

    // A worker told of no modes serves decoded HTTP only.
    constructor (max: U32, modes: seq<RequestMode>)
      ensures limits == Limits(max, if modes == [] then [DecodedHttp] else modes)
      ensures State() == Books(0, false, map[])
    {
      limits := Limits(max, if modes == [] then [DecodedHttp] else modes);
      active := 0;
      draining := false;
      cancels := map[];
    }

    method SnapshotCapacity() returns (c: Capacity)
      ensures c == CapacityOf(limits, State())
    {
      return Capacity(draining, active, limits.max, limits.modes);
    }

    method SetDraining(draining: bool)
      modifies this
      ensures State() == old(State()).(draining := draining)
    {
      this.draining := draining;
    }

    method Reserve(t: Task)
      modifies this
      ensures State() == Entered(old(State()), t)
    {
      active := Wrap32(active + 1);
      cancels := cancels[t.id := t];
    }

    method Release(t: Task)
      modifies this
      ensures State() == Struck(old(State()), t)
    {
      active := Pred32(active);
      cancels := cancels - {t.id};
    }

    // handleAssign when nothing comes between its critical sections. It returns
    // the request it has started, if any.
    method HandleAssign(a: Assignment, prepared: bool, serial: nat) returns (reply: AckCode, started: Option<Task>)
      modifies this
      ensures reply == Answer(limits, old(draining), old(active), a, prepared)
      ensures started == if reply == Accepted then Some(Task(a.id, serial)) else None
      ensures State() == if reply == Accepted then Entered(old(State()), started.value) else old(State())
    {
      started := None;
      var capacity := SnapshotCapacity();
      reply := EvaluateAssignment(a.req, capacity);
      if reply != Accepted {
        return;
      }
      if !prepared {
        return RejectedError, None;
      }
      var t := Task(a.id, serial);
      Reserve(t);
      started := Some(t);
    }

    // The requests whose cancel functions are called.
    method AbandonInFlight() returns (cancelled: set<Task>)
      ensures cancelled == cancels.Values
    {
      cancelled := {};
      var rest := cancels;
      while rest != map[]
        invariant rest.Keys <= cancels.Keys && forall id :: id in rest ==> rest[id] == cancels[id]
        invariant cancelled == set id | id in cancels && id !in rest :: cancels[id]
        decreases |rest|
      {
        ghost var before := rest;
        var id :| id in rest;
        cancelled := cancelled + {rest[id]};
        rest := rest - {id};
        assert |before.Keys - {id}| == |before.Keys| - 1 && rest.Keys == before.Keys - {id};
      }
    }
  }

  // ------------------------------------------------------ the state machine

  // A message is delivered to the handler, which looks at the books later.
  datatype Handler = Idle | Delivered(assignment: Assignment) | Checked(id: string) | Reserved(task: Task)

  datatype Serving = Subscribed | Stopping | Waiting | Ended

  datatype Machine = Machine(
    limits: Limits,
    books: Books,
    handler: Handler,
    running: set<Task>,
    finishing: nat,        // requests released whose goroutine has not ended
    admitted: nat,         // reservations entered so far
    released: nat,
    replies: seq<AckCode>,
    cancelled: set<Task>,  // requests whose cancel function Serve has called
    serving: Serving)

  datatype Step =
    | Deliver(assignment: Assignment)
    | Decide
    | PrepareFails
    | Reserve
    | Start
    | Release(task: Task)
    | Finish
    | SetDraining(draining: bool)
    | Stop
    | Unsubscribe
    | Abandon
    | WaitEnds

  function NewMachine(limits: Limits): Machine {
    Machine(limits, Books(0, false, map[]), Idle, {}, 0, 0, 0, [], {}, Subscribed)
  }

  predicate Enabled(m: Machine, step: Step) {
    match step
    case Deliver(_) => m.handler.Idle? && (m.serving.Subscribed? || m.serving.Stopping?)
    case Decide => m.handler.Delivered?
    case PrepareFails => m.handler.Checked?
    case Reserve => m.handler.Checked?
    case Start => m.handler.Reserved?
    case Release(t) => t in m.running
    case Finish => m.finishing > 0
    case SetDraining(_) => true
    case Stop => m.serving.Subscribed?
    case Unsubscribe => m.serving.Stopping?
    case Abandon => m.serving.Waiting?
    case WaitEnds => m.serving.Waiting? && m.running == {} && m.finishing == 0
  }

  function OnDecide(m: Machine): Machine
    requires m.handler.Delivered?
  {
    var a := m.handler.assignment;
    var code := EvaluateAssignment(a.req, CapacityOf(m.limits, m.books));
    if code == Accepted then m.(handler := Checked(a.id)) else m.(handler := Idle, replies := m.replies + [code])
  }

  function OnReserve(m: Machine): Machine
    requires m.handler.Checked?
  {
    var t := Task(m.handler.id, m.admitted);
    m.(books := Entered(m.books, t), handler := Reserved(t), admitted := m.admitted + 1)
  }

  function OnRelease(m: Machine, t: Task): Machine {
    m.(books := Struck(m.books, t), running := m.running - {t}, finishing := m.finishing + 1, released := m.released + 1)
  }

  // A step that is not enabled leaves the machine as it is.
  function Next(m: Machine, step: Step): Machine {
    if !Enabled(m, step) then m
    else
      match step
      case Deliver(a) => m.(handler := Delivered(a))
      case Decide => OnDecide(m)
      case PrepareFails => m.(handler := Idle, replies := m.replies + [RejectedError])
      case Reserve => OnReserve(m)
      case Start =>
        m.(handler := Idle, running := m.running + {m.handler.task}, replies := m.replies + [Accepted])
      case Release(t) => OnRelease(m, t)
      case Finish => m.(finishing := m.finishing - 1)
      case SetDraining(d) => m.(books := m.books.(draining := d))
      case Stop => m.(books := m.books.(draining := true), serving := Stopping)
      case Unsubscribe => m.(serving := Waiting)
      case Abandon => m.(cancelled := m.cancelled + m.books.cancels.Values)
      case WaitEnds => m.(serving := Ended)
  }

  function Run(m: Machine, steps: seq<Step>): Machine
    decreases |steps|
  {
    if steps == [] then m else Run(Next(m, steps[0]), steps[1..])
  }

  // -------------------------------------------------------------- invariants

  // Reserved and not yet released.
  function InFlight(m: Machine): set<Task> {
    m.running + if m.handler.Reserved? then {m.handler.task} else {}
  }

  function HandlerLoad(m: Machine): nat {
    if m.handler.Idle? then 0 else 1
  }

  function AcceptedIn(replies: seq<AckCode>): nat {
    if replies == [] then 0
    else AcceptedIn(replies[..|replies| - 1]) + if replies[|replies| - 1] == Accepted then 1 else 0
  }

  lemma AcceptedSnoc(replies: seq<AckCode>, code: AckCode)
    ensures AcceptedIn(replies + [code]) == AcceptedIn(replies) + if code == Accepted then 1 else 0
  {
    assert (replies + [code])[..|replies|] == replies;
  }

  // What the books say about the requests in flight.
  ghost predicate BooksOk(m: Machine) {
    && (forall t :: t in InFlight(m) ==> t.serial < m.admitted)
    && (m.handler.Reserved? ==> m.handler.task !in m.running)
    && m.admitted == m.released + |InFlight(m)|
    && m.books.active == Wrap32(|InFlight(m)|)
    && (forall id :: id in m.books.cancels ==> m.books.cancels[id] in InFlight(m) && m.books.cancels[id].id == id)
  }

  // There is room for the reservation a handler has checked for.
  ghost predicate RoomOk(m: Machine) {
    m.limits.max != 0 ==> |InFlight(m)| + (if m.handler.Checked? then 1 else 0) <= m.limits.max
  }

  ghost predicate RepliesOk(m: Machine) {
    AcceptedIn(m.replies) + (if m.handler.Reserved? then 1 else 0) == m.admitted
  }

  // Once the wait has ended, what is left is at most one request: the one the
  // handler was then working on.
  ghost predicate DrainOk(m: Machine) {
    m.serving.Ended? ==> |m.running| + HandlerLoad(m) <= 1
  }

  ghost predicate Inv(m: Machine) {
    BooksOk(m) && RoomOk(m) && RepliesOk(m) && DrainOk(m)
  }

  lemma WrapSucc(n: nat)
    ensures Wrap32(Wrap32(n) + 1) == Wrap32(n + 1)
    ensures Pred32(Wrap32(n + 1)) == Wrap32(n)
  {
    var w := 0x1_0000_0000;
    assert Wrap32(n) == n % w && Wrap32(n + 1) == (n + 1) % w;
    if n % w == w - 1 {
      assert n + 1 == (n / w + 1) * w;
    } else {
      assert n + 1 == (n / w) * w + (n % w + 1);
    }
  }

  lemma ReserveKeepsBooks(m: Machine)
    requires BooksOk(m) && m.handler.Checked?
    ensures BooksOk(OnReserve(m))
    ensures |InFlight(OnReserve(m))| == |InFlight(m)| + 1
  {
    var t := Task(m.handler.id, m.admitted);
    assert InFlight(OnReserve(m)) == InFlight(m) + {t} && t !in InFlight(m);
    WrapSucc(|InFlight(m)|);
  }

  lemma ReleaseShrinks(m: Machine, t: Task)
    requires BooksOk(m) && t in m.running
    ensures InFlight(OnRelease(m, t)) == InFlight(m) - {t}
    ensures |InFlight(OnRelease(m, t))| == |InFlight(m)| - 1
    ensures |m.running - {t}| == |m.running| - 1
  {
    assert t in InFlight(m);
  }

  lemma ReleaseKeepsBooks(m: Machine, t: Task)
    requires BooksOk(m) && t in m.running
    ensures BooksOk(OnRelease(m, t))
    ensures |InFlight(OnRelease(m, t))| == |InFlight(m)| - 1
  {
    ReleaseShrinks(m, t);
    WrapSucc(|InFlight(m)| - 1);
  }

  lemma SameInFlight(m: Machine, step: Step)
    requires !step.Reserve? && !step.Release?
    ensures InFlight(Next(m, step)) == InFlight(m) && Next(m, step).books.cancels == m.books.cancels
  {
  }

  lemma OtherKeepsBooks(m: Machine, step: Step)
    requires BooksOk(m) && !step.Reserve? && !step.Release?
    ensures BooksOk(Next(m, step))
  {
    SameInFlight(m, step);
    SameCounts(m, step);
  }

  lemma SameCounts(m: Machine, step: Step)
    requires !step.Reserve? && !step.Release?
    ensures var m' := Next(m, step);
            && m'.admitted == m.admitted && m'.released == m.released
            && m'.books.active == m.books.active
            && (m'.handler.Reserved? ==> m'.handler == m.handler && m'.running == m.running)
  {
  }

  lemma NextBooksOk(m: Machine, step: Step)
    requires BooksOk(m)
    ensures BooksOk(Next(m, step))
  {
    if Enabled(m, step) {
      match step
      case Reserve => ReserveKeepsBooks(m);
      case Release(t) => ReleaseKeepsBooks(m, t);
      case _ => OtherKeepsBooks(m, step);
    }
  }

  // The counter is exact below the limit, so the check means what it says.
  lemma DecideKeepsRoom(m: Machine)
    requires BooksOk(m) && RoomOk(m) && m.handler.Delivered?
    ensures RoomOk(OnDecide(m))
  {
  }

  lemma NextRoomOk(m: Machine, step: Step)
    requires BooksOk(m) && RoomOk(m)
    ensures RoomOk(Next(m, step))
  {
    if Enabled(m, step) {
      match step
      case Decide => DecideKeepsRoom(m);
      case Reserve => ReserveKeepsBooks(m);
      case Release(t) => ReleaseKeepsBooks(m, t);
      case _ => SameInFlight(m, step);
    }
  }

  lemma NextRepliesOk(m: Machine, step: Step)
    requires RepliesOk(m)
    ensures RepliesOk(Next(m, step))
  {
    if Enabled(m, step) {
      match step
      case Decide =>
        AcceptedSnoc(m.replies, EvaluateAssignment(m.handler.assignment.req, CapacityOf(m.limits, m.books)));
      case PrepareFails => AcceptedSnoc(m.replies, RejectedError);
      case Start => AcceptedSnoc(m.replies, Accepted);
      case _ =>
    }
  }

  lemma LoadFalls(m: Machine, step: Step)
    requires m.serving.Ended? && BooksOk(m)
    ensures Next(m, step).serving.Ended?
    ensures |Next(m, step).running| + HandlerLoad(Next(m, step)) <= |m.running| + HandlerLoad(m)
  {
    if Enabled(m, step) && step.Release? {
      ReleaseShrinks(m, step.task);
    } else {
      OtherLoadFalls(m, step);
    }
  }

  lemma OtherLoadFalls(m: Machine, step: Step)
    requires m.serving.Ended? && !(Enabled(m, step) && step.Release?)
    ensures Next(m, step).serving.Ended?
    ensures |Next(m, step).running| + HandlerLoad(Next(m, step)) <= |m.running| + HandlerLoad(m)
  {
    if Enabled(m, step) && step.Start? {
      AddOne(m.running, m.handler.task);
    }
  }

  lemma AddOne(tasks: set<Task>, t: Task)
    ensures |tasks + {t}| <= |tasks| + 1
  {
  }

  lemma NextDrainOk(m: Machine, step: Step)
    requires BooksOk(m) && DrainOk(m)
    ensures DrainOk(Next(m, step))
  {
    if m.serving.Ended? {
      LoadFalls(m, step);
    }
  }

  lemma NextInv(m: Machine, step: Step)
    requires Inv(m)
    ensures Inv(Next(m, step))
  {
    NextBooksOk(m, step);
    NextRoomOk(m, step);
    NextRepliesOk(m, step);
    NextDrainOk(m, step);
  }

  lemma {:induction false} RunInv(m: Machine, steps: seq<Step>)
    requires Inv(m)
    ensures Inv(Run(m, steps))
    decreases |steps|
  {
    if steps == [] {
    } else {
      NextInv(m, steps[0]);
      RunInv(Next(m, steps[0]), steps[1..]);
    }
  }

  lemma {:induction false} RunLimits(m: Machine, steps: seq<Step>)
    ensures Run(m, steps).limits == m.limits
    decreases |steps|
  {
    if steps == [] {
    } else {
      RunLimits(Next(m, steps[0]), steps[1..]);
    }
  }

  // ------------------------------------------------------------ main results

  // In every interleaving the counter is the number of requests reserved and
  // not yet released; with a limit it never exceeds the limit, so it never
  // wraps, and without one it is exact below 2^32.
  lemma ActiveCounts(limits: Limits, steps: seq<Step>)
    ensures var m := Run(NewMachine(limits), steps);
            && |InFlight(m)| == m.admitted - m.released
            && m.admitted == AcceptedIn(m.replies) + (if m.handler.Reserved? then 1 else 0)
            && (limits.max != 0 ==> m.books.active == |InFlight(m)| <= limits.max)
            && (m.books.active == |InFlight(m)| <==> |InFlight(m)| < 0x1_0000_0000)
            && (m.running != {} && limits.max != 0 ==> m.books.active > 0)
  {
    RunInv(NewMachine(limits), steps);
    RunLimits(NewMachine(limits), steps);
    var m := Run(NewMachine(limits), steps);
    if m.running != {} {
      var t :| t in m.running;
      assert t in InFlight(m);
    }
  }

  ghost predicate AlwaysDraining(m: Machine, steps: seq<Step>)
    decreases |steps|
  {
    m.books.draining && (steps != [] ==> AlwaysDraining(Next(m, steps[0]), steps[1..]))
  }

  // While the worker is draining it admits nothing but the request whose
  // handler had passed the check before.
  lemma {:induction false} DrainingAdmits(m: Machine, steps: seq<Step>)
    requires AlwaysDraining(m, steps)
    ensures Run(m, steps).admitted <= m.admitted + (if m.handler.Checked? then 1 else 0)
    decreases |steps|
  {
    if steps == [] {
    } else {
      DrainingAdmits(Next(m, steps[0]), steps[1..]);
    }
  }

  // And that one it does admit, whatever it has been told since.
  lemma LateAdmission(m: Machine)
    requires m.handler.Checked?
    ensures var m' := Run(m, [SetDraining(true), Reserve, Start]);
            && m'.books.draining && m'.admitted == m.admitted + 1
            && m'.replies == m.replies + [Accepted]
  {
    var m1 := Next(m, SetDraining(true));
    var m2 := Next(m1, Reserve);
    assert Run(m2, [Start]) == Next(m2, Start);
    assert [Reserve, Start][1..] == [Start];
    assert [SetDraining(true), Reserve, Start][1..] == [Reserve, Start];
    assert Run(m1, [Reserve, Start]) == Run(m2, [Start]);
  }

  lemma {:induction false} AdmittedGrows(m: Machine, steps: seq<Step>)
    ensures Run(m, steps).admitted >= m.admitted
    decreases |steps|
  {
    if steps == [] {
    } else {
      AdmittedGrows(Next(m, steps[0]), steps[1..]);
    }
  }

  lemma RunOne(m: Machine, step: Step)
    ensures Run(m, [step]) == Next(m, step)
  {
    assert Run(m, [step]) == Run(Next(m, step), []);
  }

  lemma RunCons(m: Machine, step: Step, rest: seq<Step>)
    ensures Run(m, [step] + rest) == Run(Next(m, step), rest)
  {
    assert ([step] + rest)[1..] == rest;
  }

  ghost predicate AdmitsNoneWhileDraining(m: Machine) {
    forall steps :: AlwaysDraining(m, steps) ==> Run(m, steps).admitted == m.admitted
  }

  // Exactly when draining admits nothing more: when no handler has passed its
  // check.
  lemma DrainingIsFinal(m: Machine)
    requires m.books.draining
    ensures AdmitsNoneWhileDraining(m) <==> !m.handler.Checked?
  {
    if m.handler.Checked? {
      RunOne(m, Reserve);
      assert Next(m, Reserve).books.draining;
      assert AlwaysDraining(m, [Reserve]);
    } else {
      forall steps | AlwaysDraining(m, steps)
        ensures Run(m, steps).admitted == m.admitted
      {
        DrainingAdmits(m, steps);
        AdmittedGrows(m, steps);
      }
    }
  }

  ghost predicate NoUndrain(steps: seq<Step>) {
    forall i :: 0 <= i < |steps| ==> steps[i] != SetDraining(false)
  }

  lemma {:induction false} StaysDraining(m: Machine, steps: seq<Step>)
    requires m.books.draining && NoUndrain(steps)
    ensures AlwaysDraining(m, steps)
    decreases |steps|
  {
    if steps == [] {
    } else {
      assert Next(m, steps[0]).books.draining;
      StaysDraining(Next(m, steps[0]), steps[1..]);
    }
  }

  // Being told to drain, or to stop, ends admission but for the request past its
  // check, until the worker is told otherwise.
  lemma DrainEndsAdmission(m: Machine, step: Step, steps: seq<Step>)
    requires step == SetDraining(true) || (step == Stop && m.serving.Subscribed?)
    requires NoUndrain(steps)
    ensures Run(Next(m, step), steps).admitted <= m.admitted + (if m.handler.Checked? then 1 else 0)
  {
    StaysDraining(Next(m, step), steps);
    DrainingAdmits(Next(m, step), steps);
  }

  // Once the subscription has ended nothing more is delivered: an idle handler
  // stays idle, and nothing more is admitted.
  lemma {:induction false} QuietAfterUnsubscribe(m: Machine, steps: seq<Step>)
    requires m.handler.Idle? && (m.serving.Waiting? || m.serving.Ended?)
    ensures var m' := Run(m, steps); m'.handler.Idle? && m'.admitted == m.admitted && m'.replies == m.replies
    decreases |steps|
  {
    if steps == [] {
    } else {
      QuietStep(m, steps[0]);
      QuietAfterUnsubscribe(Next(m, steps[0]), steps[1..]);
    }
  }

  lemma QuietStep(m: Machine, step: Step)
    requires m.handler.Idle? && (m.serving.Waiting? || m.serving.Ended?)
    ensures var m' := Next(m, step);
            && m'.handler.Idle? && (m'.serving.Waiting? || m'.serving.Ended?)
            && m'.admitted == m.admitted && m'.replies == m.replies
  {
  }

  // What Serve leaves behind: from the moment its wait ends, nothing is in
  // flight unless a message had been delivered to the handler by then, and in
  // that case never more than that one request.
  lemma DrainComplete(m: Machine, steps: seq<Step>)
    requires Inv(m) && Enabled(m, WaitEnds)
    ensures InFlight(m) == if m.handler.Reserved? then {m.handler.task} else {}
    ensures |InFlight(Run(Next(m, WaitEnds), steps))| <= HandlerLoad(m)
  {
    var m1 := Next(m, WaitEnds);
    NextInv(m, WaitEnds);
    AfterEnd(m1, steps);
  }

  // The goroutines of requests that have ended.
  function Finishes(m: Machine, steps: seq<Step>): nat
    decreases |steps|
  {
    if steps == [] then 0
    else (if steps[0].Finish? && Enabled(m, steps[0]) then 1 else 0) + Finishes(Next(m, steps[0]), steps[1..])
  }

  lemma StepGoroutines(m: Machine, step: Step)
    ensures var m' := Next(m, step);
            m'.finishing + (if step.Finish? && Enabled(m, step) then 1 else 0) - m'.released == m.finishing - m.released
  {
  }

  lemma {:induction false} GoroutinesCounted(m: Machine, steps: seq<Step>)
    ensures var m' := Run(m, steps);
            m'.finishing + Finishes(m, steps) - m'.released == m.finishing - m.released
    decreases |steps|
  {
    if steps == [] {
    } else {
      StepGoroutines(m, steps[0]);
      GoroutinesCounted(Next(m, steps[0]), steps[1..]);
    }
  }

  // Serve waits for all of them: in every run, its wait can end only when every
  // request that was started has been released and its goroutine has ended.
  lemma {:induction false} ServeWaitsForAll(limits: Limits, steps: seq<Step>, m: Machine)
    requires m == Run(NewMachine(limits), steps) && Enabled(m, WaitEnds)
    ensures m.running == {} && m.released == Finishes(NewMachine(limits), steps)
    ensures m.admitted == m.released + if m.handler.Reserved? then 1 else 0
  {
    RunInv(NewMachine(limits), steps);
    GoroutinesCounted(NewMachine(limits), steps);
  }

  // The bound is reached: a message delivered before the subscription ended is
  // looked at after Serve's wait, and is accepted if draining was lifted again
  // meanwhile, which the runtime's snapshot subscription may do until then.
  lemma AdmittedAfterServe(m: Machine)
    requires Enabled(m, WaitEnds) && m.handler.Delivered?
    requires EvaluateAssignment(m.handler.assignment.req, CapacityOf(m.limits, m.books.(draining := false))) == Accepted
    ensures InFlight(m) == {}
    ensures InFlight(Run(m, [SetDraining(false), WaitEnds, Decide, Reserve]))
            == {Task(m.handler.assignment.id, m.admitted)}
  {
    var ended := WaitEndsUndrained(m);
    DecidedAndReserved(ended);
    RunFour(m, [SetDraining(false), WaitEnds, Decide, Reserve]);
  }

  // Such a run from the start, and all it leaves behind.
  lemma LeavesOneBehind(a: Assignment)
    requires a.req.Some? && a.req.value.valid
    ensures var m0 := NewMachine(Limits(0, [a.req.value.mode]));
            var m := Run(Run(m0, [Deliver(a), Stop, Unsubscribe]), [SetDraining(false), WaitEnds, Decide, Reserve]);
            m.serving.Ended? && InFlight(m) == {Task(a.id, 0)}
  {
    var m0 := NewMachine(Limits(0, [a.req.value.mode]));
    var m1 := m0.(handler := Delivered(a));
    var m2 := m1.(books := m1.books.(draining := true), serving := Stopping);
    var m3 := m2.(serving := Waiting);
    assert Next(m0, Deliver(a)) == m1 && Next(m1, Stop) == m2 && Next(m2, Unsubscribe) == m3;
    RunThree(m0, Deliver(a), Stop, Unsubscribe);
    AdmittedAfterServe(m3);
    RunFour(m3, [SetDraining(false), WaitEnds, Decide, Reserve]);
  }

  lemma RunThree(m: Machine, first: Step, second: Step, third: Step)
    ensures Run(m, [first, second, third]) == Next(Next(Next(m, first), second), third)
  {
    assert [first, second, third] == [first] + [second, third];
    RunCons(m, first, [second, third]);
    RunPair(Next(m, first), second, third);
  }

  // Serve cancels nothing before its subscription has ended.
  lemma StepCancels(m: Machine, step: Step)
    requires m.serving.Subscribed? || m.serving.Stopping? ==> m.cancelled == {}
    ensures var m' := Next(m, step); m'.serving.Subscribed? || m'.serving.Stopping? ==> m'.cancelled == {}
  {
  }

  lemma {:induction false} RunCancels(m: Machine, steps: seq<Step>)
    requires m.serving.Subscribed? || m.serving.Stopping? ==> m.cancelled == {}
    ensures var m' := Run(m, steps); m'.serving.Subscribed? || m'.serving.Stopping? ==> m'.cancelled == {}
    decreases |steps|
  {
    if steps == [] {
    } else {
      StepCancels(m, steps[0]);
      RunCancels(Next(m, steps[0]), steps[1..]);
    }
  }

  lemma {:induction false} CancelsOnlyWhileWaiting(limits: Limits, steps: seq<Step>, m: Machine)
    requires m == Run(NewMachine(limits), steps) && m.cancelled != {}
    ensures m.serving.Waiting? || m.serving.Ended?
  {
    RunCancels(NewMachine(limits), steps);
  }

  // A delivered message that no lifting of draining would admit.
  predicate Refusable(m: Machine) {
    && m.handler.Delivered?
    && EvaluateAssignment(m.handler.assignment.req, Capacity(false, 0, m.limits.max, m.limits.modes)) != Accepted
  }

  // Nothing is in flight, and the handler has nothing that could be.
  ghost predicate Drained(m: Machine) {
    && m.serving.Ended? && m.running == {} && m.books.active == 0
    && (m.handler.Idle? || Refusable(m))
  }

  lemma NextDrained(m: Machine, step: Step)
    requires Drained(m)
    ensures Drained(Next(m, step))
  {
    if Enabled(m, step) && step.Decide? {
      DecideDrained(m);
    }
  }

  lemma DecideDrained(m: Machine)
    requires Drained(m) && m.handler.Delivered?
    ensures Drained(OnDecide(m))
  {
  }

  lemma {:induction false} RunDrained(m: Machine, steps: seq<Step>)
    requires Drained(m)
    ensures InFlight(Run(m, steps)) == {}
    decreases |steps|
  {
    if steps == [] {
    } else {
      NextDrained(m, steps[0]);
      RunDrained(Next(m, steps[0]), steps[1..]);
    }
  }

  ghost predicate StaysEmpty(m: Machine) {
    forall steps :: InFlight(Run(m, steps)) == {}
  }

  // Exactly when Serve leaves nothing behind: if nothing will ever be in flight
  // after its wait, then and only then was the handler idle, or held a message
  // that an empty worker that is not draining would refuse.
  lemma DrainCompleteIff(m: Machine)
    requires Inv(m) && Enabled(m, WaitEnds)
    ensures StaysEmpty(Next(m, WaitEnds)) <==> m.handler.Idle? || Refusable(m)
  {
    var ended := Next(m, WaitEnds);
    if m.handler.Idle? || Refusable(m) {
      assert InFlight(m) == {};
      forall steps | true
        ensures InFlight(Run(ended, steps)) == {}
      {
        RunDrained(ended, steps);
      }
    } else {
      var steps := LeftBehind(ended);
      assert InFlight(Run(ended, steps)) != {};
    }
  }

  // Otherwise these steps put a request in flight.
  lemma LeftBehind(m: Machine) returns (steps: seq<Step>)
    requires BooksOk(m) && m.serving.Ended? && m.running == {} && !m.handler.Idle? && !Refusable(m)
    ensures InFlight(Run(m, steps)) != {}
  {
    match m.handler
    case Reserved(t) =>
      steps := [];
      assert t in InFlight(m);
    case Checked(id) =>
      steps := [Reserve];
      RunOne(m, Reserve);
      assert Task(id, m.admitted) in InFlight(OnReserve(m));
    case Delivered(a) =>
      steps := [SetDraining(false)] + [Decide, Reserve];
      assert InFlight(m) == {};
      DeliveredAdmitted(m);
  }

  lemma DeliveredAdmitted(m: Machine)
    requires m.handler.Delivered? && m.running == {} && m.books.active == 0 && !Refusable(m)
    ensures InFlight(Run(m, [SetDraining(false)] + [Decide, Reserve])) != {}
  {
    var m1 := m.(books := m.books.(draining := false));
    assert Next(m, SetDraining(false)) == m1;
    RunCons(m, SetDraining(false), [Decide, Reserve]);
    DecidedAndReserved(m1);
    RunCons(m1, Decide, [Reserve]);
    assert [Decide] + [Reserve] == [Decide, Reserve];
    RunOne(Next(m1, Decide), Reserve);
    assert Task(m.handler.assignment.id, m.admitted) in InFlight(Run(m1, [Decide, Reserve]));
  }

  lemma WaitEndsUndrained(m: Machine) returns (m': Machine)
    requires Enabled(m, WaitEnds)
    ensures m' == Next(Next(m, SetDraining(false)), WaitEnds)
    ensures m' == m.(books := m.books.(draining := false), serving := Ended)
  {
    m' := Next(Next(m, SetDraining(false)), WaitEnds);
  }

  lemma DecidedAndReserved(m: Machine)
    requires m.handler.Delivered? && m.running == {}
    requires EvaluateAssignment(m.handler.assignment.req, CapacityOf(m.limits, m.books)) == Accepted
    ensures InFlight(Next(Next(m, Decide), Reserve)) == {Task(m.handler.assignment.id, m.admitted)}
  {
  }

  lemma RunFour(m: Machine, s: seq<Step>)
    requires |s| == 4
    ensures Run(m, s) == Next(Next(Next(Next(m, s[0]), s[1]), s[2]), s[3])
  {
    var m1 := Next(m, s[0]);
    var m2 := Next(m1, s[1]);
    var m3 := Next(m2, s[2]);
    assert Run(m, s) == Run(m1, s[1..]);
    assert s[1..][0] == s[1] && s[1..][1..] == s[2..] && Run(m1, s[1..]) == Run(m2, s[2..]);
    assert s[2..][0] == s[2] && s[2..][1..] == s[3..] && Run(m2, s[2..]) == Run(m3, s[3..]);
    assert s[3..][1..] == [] && Run(m3, s[3..]) == Run(Next(m3, s[3]), []);
  }

  lemma {:induction false} AfterEnd(m: Machine, steps: seq<Step>)
    requires m.serving.Ended? && BooksOk(m)
    ensures |InFlight(Run(m, steps))| <= |m.running| + HandlerLoad(m)
    decreases |steps|
  {
    if steps == [] {
    } else {
      var m1 := Next(m, steps[0]);
      NextBooksOk(m, steps[0]);
      LoadFalls(m, steps[0]);
      AfterEnd(m1, steps[1..]);
    }
  }

  // ----------------------------------------------------------- cancellation

  lemma {:induction false} KeysBounded(cancels: map<string, Task>, tasks: set<Task>)
    requires forall id :: id in cancels ==> cancels[id] in tasks && cancels[id].id == id
    ensures |cancels| <= |tasks|
    decreases |cancels|
  {
    if cancels == map[] {
    } else {
      var id :| id in cancels;
      var rest := cancels - {id};
      assert cancels.Keys == rest.Keys + {id};
      KeysBounded(rest, tasks - {cancels[id]});
    }
  }

  // The cancel map is never larger than the number of requests in flight, and
  // never holds the cancel function of a request that is not.
  lemma CancelsBounded(limits: Limits, steps: seq<Step>)
    ensures var m := Run(NewMachine(limits), steps);
            && |m.books.cancels| <= |InFlight(m)|
            && m.books.cancels.Values <= InFlight(m)
  {
    RunInv(NewMachine(limits), steps);
    var m := Run(NewMachine(limits), steps);
    KeysBounded(m.books.cancels, InFlight(m));
  }

  ghost predicate Cancellable(m: Machine) {
    forall t :: t in InFlight(m) ==> t.id in m.books.cancels && m.books.cancels[t.id] == t
  }

  // Reserving an id that is in flight already. Nothing in the worker checks
  // for it.
  ghost predicate Duplicate(m: Machine, step: Step) {
    step.Reserve? && m.handler.Checked? && exists t :: t in InFlight(m) && t.id == m.handler.id
  }

  // abandonInFlight reaches every request in flight exactly when each is
  // registered under its id, and then the keys are exactly the ids.
  lemma AbandonReaches(m: Machine)
    requires Inv(m) && m.serving.Waiting?
    ensures Next(m, Abandon).cancelled == m.cancelled + m.books.cancels.Values
    ensures InFlight(m) <= m.books.cancels.Values <==> Cancellable(m)
    ensures Cancellable(m) ==> m.books.cancels.Keys == set t | t in InFlight(m) :: t.id
  {
    if InFlight(m) <= m.books.cancels.Values {
      RegisteredCancellable(m);
    }
    if Cancellable(m) {
      CancellableRegistered(m);
    }
  }

  lemma RegisteredCancellable(m: Machine)
    requires BooksOk(m) && InFlight(m) <= m.books.cancels.Values
    ensures Cancellable(m)
  {
    forall t | t in InFlight(m)
      ensures t.id in m.books.cancels && m.books.cancels[t.id] == t
    {
      assert t in m.books.cancels.Values;
    }
  }

  lemma CancellableRegistered(m: Machine)
    requires BooksOk(m) && Cancellable(m)
    ensures InFlight(m) <= m.books.cancels.Values
    ensures m.books.cancels.Keys == set t | t in InFlight(m) :: t.id
  {
    forall t | t in InFlight(m)
      ensures t in m.books.cancels.Values
    {
      assert t.id in m.books.cancels;
    }
  }

  // The one step that can lose a cancel function is a duplicate reservation,
  // and it always does.
  lemma NextCancellable(m: Machine, step: Step)
    requires BooksOk(m) && Cancellable(m)
    ensures Cancellable(Next(m, step)) <==> !Duplicate(m, step)
  {
    if Enabled(m, step) {
      match step
      case Reserve => ReserveCancellable(m);
      case Release(t) => ReleaseCancellable(m, t);
      case _ => SameInFlight(m, step);
    }
  }

  lemma ReserveCancellable(m: Machine)
    requires BooksOk(m) && Cancellable(m) && m.handler.Checked?
    ensures Cancellable(OnReserve(m)) <==> !Duplicate(m, Reserve)
  {
    var t := Task(m.handler.id, m.admitted);
    assert InFlight(OnReserve(m)) == InFlight(m) + {t} && t !in InFlight(m);
  }

  lemma ReleaseCancellable(m: Machine, t: Task)
    requires BooksOk(m) && Cancellable(m) && t in m.running
    ensures Cancellable(OnRelease(m, t))
  {
    ReleaseShrinks(m, t);
    assert t in InFlight(m);
  }

  ghost predicate NoDuplicates(m: Machine, steps: seq<Step>)
    decreases |steps|
  {
    steps != [] ==> !Duplicate(m, steps[0]) && NoDuplicates(Next(m, steps[0]), steps[1..])
  }

  ghost predicate AlwaysCancellable(m: Machine, steps: seq<Step>)
    decreases |steps|
  {
    Cancellable(m) && (steps != [] ==> AlwaysCancellable(Next(m, steps[0]), steps[1..]))
  }

  // Over a whole run, the worker can at every moment cancel everything it is
  // serving exactly if no id is ever reserved while in flight.
  lemma {:induction false} RunCancellable(m: Machine, steps: seq<Step>)
    requires BooksOk(m) && Cancellable(m)
    ensures AlwaysCancellable(m, steps) <==> NoDuplicates(m, steps)
    decreases |steps|
  {
    if steps == [] {
    } else {
      NextBooksOk(m, steps[0]);
      NextCancellable(m, steps[0]);
      if !Duplicate(m, steps[0]) {
        RunCancellable(Next(m, steps[0]), steps[1..]);
      }
    }
  }

  // Otherwise a request can be left that nothing cancels: of two with one id,
  // releasing either strikes the entry of both.
  lemma OrphanedTask(m: Machine, t: Task, u: Task)
    requires Inv(m) && t in m.running && u in m.running && t != u && t.id == u.id
    ensures var m' := Next(m, Release(t));
            u in InFlight(m') && u.id !in m'.books.cancels && u !in m'.books.cancels.Values
  {
    NextBooksOk(m, Release(t));
  }

  lemma DeliverDecide(m: Machine, a: Assignment)
    requires m.handler.Idle? && (m.serving.Subscribed? || m.serving.Stopping?)
    requires EvaluateAssignment(a.req, CapacityOf(m.limits, m.books)) == Accepted
    ensures Next(Next(m, Deliver(a)), Decide) == m.(handler := Checked(a.id))
  {
    var m1 := m.(handler := Delivered(a));
    assert Next(m, Deliver(a)) == m1;
  }

  lemma ReserveStart(m: Machine)
    requires m.handler.Checked?
    ensures var t := Task(m.handler.id, m.admitted);
            Next(Next(m, Reserve), Start)
            == m.(handler := Idle, books := Entered(m.books, t), running := m.running + {t},
                  admitted := m.admitted + 1, replies := m.replies + [Accepted])
  {
    var t := Task(m.handler.id, m.admitted);
    var m1 := m.(books := Entered(m.books, t), handler := Reserved(t), admitted := m.admitted + 1);
    assert Next(m, Reserve) == m1;
  }

  function Assigned(a: Assignment): seq<Step> {
    [Deliver(a), Decide, Reserve, Start]
  }

  // The handler's steps when nothing comes between them; those that a refusal
  // makes pointless do nothing.
  function Handling(a: Assignment, prepared: bool): seq<Step> {
    if prepared then Assigned(a) else [Deliver(a), Decide] + [PrepareFails]
  }

  // An assignment nothing interleaves with is answered, and admitted, by what is
  // in flight: the machine does what Worker.HandleAssign does.
  lemma Undisturbed(m: Machine, a: Assignment, prepared: bool)
    requires Inv(m) && m.handler.Idle? && (m.serving.Subscribed? || m.serving.Stopping?)
    ensures var t := Task(a.id, m.admitted);
            var answer := Answer(m.limits, m.books.draining, |InFlight(m)|, a, prepared);
            Run(m, Handling(a, prepared))
            == if answer == Accepted then
                 m.(books := Entered(m.books, t), running := m.running + {t},
                    admitted := m.admitted + 1, replies := m.replies + [Accepted])
               else m.(replies := m.replies + [answer])
  {
    LoadIsActive(m);
    var code := EvaluateAssignment(a.req, CapacityOf(m.limits, m.books));
    if code != Accepted {
      Refused(m, a, prepared);
    } else if prepared {
      DeliverDecide(m, a);
      ReserveStart(m.(handler := Checked(a.id)));
      RunFour(m, Assigned(a));
    } else {
      Unprepared(m, a);
    }
  }

  // With a limit, the counter is the number in flight.
  lemma LoadIsActive(m: Machine)
    requires Inv(m)
    ensures m.limits.max != 0 ==> m.books.active == |InFlight(m)|
  {
  }

  lemma RunPair(m: Machine, first: Step, second: Step)
    ensures Run(m, [first, second]) == Next(Next(m, first), second)
  {
    assert [first, second] == [first] + [second];
    RunCons(m, first, [second]);
    RunOne(Next(m, first), second);
  }

  lemma Refused(m: Machine, a: Assignment, prepared: bool)
    requires m.handler.Idle? && (m.serving.Subscribed? || m.serving.Stopping?)
    requires EvaluateAssignment(a.req, CapacityOf(m.limits, m.books)) != Accepted
    ensures Run(m, Handling(a, prepared))
            == m.(replies := m.replies + [EvaluateAssignment(a.req, CapacityOf(m.limits, m.books))])
  {
    var m1 := m.(handler := Delivered(a));
    var m2 := m.(replies := m.replies + [EvaluateAssignment(a.req, CapacityOf(m.limits, m.books))]);
    assert Next(m, Deliver(a)) == m1 && Next(m1, Decide) == m2;
    if prepared {
      RunFour(m, Assigned(a));
      assert Next(m2, Reserve) == m2 && Next(m2, Start) == m2;
    } else {
      assert [Deliver(a), Decide] + [PrepareFails] == [Deliver(a)] + [Decide, PrepareFails];
      RunCons(m, Deliver(a), [Decide, PrepareFails]);
      RunPair(m1, Decide, PrepareFails);
      assert Next(m2, PrepareFails) == m2;
    }
  }

  lemma Unprepared(m: Machine, a: Assignment)
    requires m.handler.Idle? && (m.serving.Subscribed? || m.serving.Stopping?)
    requires EvaluateAssignment(a.req, CapacityOf(m.limits, m.books)) == Accepted
    ensures Run(m, [Deliver(a), Decide] + [PrepareFails]) == m.(replies := m.replies + [RejectedError])
  {
    DeliverDecide(m, a);
    var m1 := m.(handler := Checked(a.id));
    assert [Deliver(a), Decide] + [PrepareFails] == [Deliver(a)] + [Decide, PrepareFails];
    RunCons(m, Deliver(a), [Decide, PrepareFails]);
    RunPair(Next(m, Deliver(a)), Decide, PrepareFails);
    assert Next(m1, PrepareFails) == m.(replies := m.replies + [RejectedError]);
  }

  // It does happen: one id assigned twice and released once leaves a request
  // running that the drain timeout does not cancel.
  lemma LostCancel(a: Assignment)
    requires a.req.Some? && a.req.value.valid
    ensures var once := Assigned(a);
            var m := Next(Run(Run(NewMachine(Limits(0, [a.req.value.mode])), once), once), Release(Task(a.id, 0)));
            m.running == {Task(a.id, 1)} && m.books.active == 1 && m.books.cancels == map[]
  {
    var m0 := NewMachine(Limits(0, [a.req.value.mode]));
    var t, u := Task(a.id, 0), Task(a.id, 1);
    NewInv(m0.limits);
    AdmittedOnce(m0, a);
    var m1 := Run(m0, Assigned(a));
    RunInv(m0, Assigned(a));
    AdmittedOnce(m1, a);
    assert m1.books.cancels == map[a.id := t];
    var m2 := Run(m1, Assigned(a));
    assert m2.running == {t, u} && m2.books.cancels == map[a.id := u];
    assert {t, u} - {t} == {u};
  }

  lemma NewInv(limits: Limits)
    ensures Inv(NewMachine(limits))
  {
  }

  lemma AdmittedOnce(m: Machine, a: Assignment)
    requires Inv(m) && m.handler.Idle? && (m.serving.Subscribed? || m.serving.Stopping?) && !m.books.draining
    requires a.req.Some? && a.req.value.valid && m.limits == Limits(0, [a.req.value.mode])
    ensures var t := Task(a.id, m.admitted);
            Run(m, Assigned(a))
            == m.(books := Entered(m.books, t), running := m.running + {t},
                  admitted := m.admitted + 1, replies := m.replies + [Accepted])
  {
    Undisturbed(m, a, true);
  }
}
