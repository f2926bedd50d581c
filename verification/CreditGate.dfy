// egress/assignment.go: responseCreditGate, which limits how many response
// bytes the worker may publish before Control grants more.

module CreditGate {
  import opened Frames

  const GRANT_QUEUE_CAPACITY: nat := 32
  const FRAME_DATA_BYTES: nat := 32768

  // An initial credit of 0 makes a nil gate, which never limits anything.
  datatype Gate = NilGate | Gate(credit: U64)

  function NewGate(initial: U64): Gate {
    if initial == 0 then NilGate else Gate(initial)
  }

  // What a taker that waits at credit 0 may be woken by.
  datatype Signal = Granted(amount: U64) | ContextDone

  datatype Allowance =
    | Took(n: nat)
    | Refused      // the context ended while the credit was 0
    | Waiting      // the signals ran out: the taker is still blocked

  // `grants` are the grants consumed on the way, `rest` the signals left over.
  datatype Take = Take(outcome: Allowance, gate: Gate, grants: seq<U64>, rest: seq<Signal>)

  function Sum(amounts: seq<U64>): nat {
    if amounts == [] then 0 else Sum(amounts[..|amounts| - 1]) + amounts[|amounts| - 1]
  }

  lemma {:induction false} SumConcat(a: seq<U64>, b: seq<U64>)
    ensures Sum(a + b) == Sum(a) + Sum(b)
  {
    if b == [] {
      assert a + b == a;
    } else {
      var n := |b| - 1;
      SumConcat(a, b[..n]);
      assert (a + b)[..|a + b| - 1] == a + b[..n];
    }
  }

  lemma SumSnoc(amounts: seq<U64>, b: U64)
    ensures Sum(amounts + [b]) == Sum(amounts) + b
  {
    assert (amounts + [b])[..|amounts|] == amounts;
  }

  lemma SumCons(amounts: seq<U64>)
    requires amounts != []
    ensures Sum(amounts) == amounts[0] + Sum(amounts[1..])
  {
    SumConcat(amounts[..1], amounts[1..]);
    assert amounts == amounts[..1] + amounts[1..];
    SumSnoc([], amounts[0]);
    assert amounts[..1] == [] + [amounts[0]];
  }

  // The grants among the signals.
  function GrantsIn(signals: seq<Signal>): seq<U64> {
    if signals == [] then []
    else (if signals[0].Granted? then [signals[0].amount] else []) + GrantsIn(signals[1..])
  }

  // One take from a gate that has credit: everything asked for if the credit
  // covers it, and otherwise a single byte.
  function TakeCredit(g: Gate, limit: nat): (nat, Gate)
    requires g.Gate? ==> g.credit > 0
  {
    if g.NilGate? then (limit, g)
    else if g.credit < limit then (1, Gate(g.credit - 1))
    else (limit, Gate(g.credit - limit))
  }

  function TakeAvailable(g: Gate, limit: nat, signals: seq<Signal>): Take
    decreases |signals|
  {
    if g.Gate? && g.credit == 0 then
      if signals == [] then Take(Waiting, g, [], [])
      else
        match signals[0]
        case ContextDone => Take(Refused, g, [], signals[1..])
        case Granted(amount) =>
          var t := TakeAvailable(Gate(Wrap64(g.credit + amount)), limit, signals[1..]);
          t.(grants := [amount] + t.grants)
    else
      var (n, g') := TakeCredit(g, limit);
      Take(Took(n), g', [], signals)
  }

  function Amount(o: Allowance): nat {
    if o.Took? then o.n else 0
  }

  // A take yields between 1 byte and the limit, and every byte of it was paid
  // for by the credit held before or by a grant consumed on the way. A grant is
  // added only at credit 0, so the uint64 addition never wraps.
  lemma {:induction false} TakeConserves(g: Gate, limit: nat, signals: seq<Signal>)
    requires limit >= 1
    ensures var t := TakeAvailable(g, limit, signals);
            && (t.outcome.Took? ==> 1 <= t.outcome.n <= limit)
            && (g.NilGate? ==> t == Take(Took(limit), g, [], signals))
            && (g.Gate? ==> t.gate.Gate? && g.credit + Sum(t.grants) == t.gate.credit + Amount(t.outcome))
            && (!t.outcome.Took? ==> t.gate == Gate(0))
            && (t.outcome.Waiting? ==> t.rest == [])
    decreases |signals|
  {
    if g.NilGate? || g.credit > 0 || signals == [] || signals[0].ContextDone? {
    } else {
      var amount := signals[0].amount;
      TakeConserves(Gate(Wrap64(g.credit + amount)), limit, signals[1..]);
      var t := TakeAvailable(Gate(Wrap64(g.credit + amount)), limit, signals[1..]);
      SumConcat([amount], t.grants);
    }
  }

  // A take is all or one byte: the limit when the credit at hand covers it, and
  // otherwise a single byte. Grants are looked at only when the credit is 0.
  lemma {:induction false} TakeShape(g: Gate, limit: nat, signals: seq<Signal>)
    requires limit >= 1 && g.Gate?
    ensures var t := TakeAvailable(g, limit, signals);
            && t.gate.Gate?
            && (t.outcome.Took? ==> t.outcome.n == if t.gate.credit + t.outcome.n < limit then 1 else limit)
            && (t.grants != [] ==> g.credit == 0)
    decreases |signals|
  {
    if g.credit > 0 || signals == [] || signals[0].ContextDone? {
    } else {
      TakeShape(Gate(Wrap64(g.credit + signals[0].amount)), limit, signals[1..]);
    }
  }

  // The first i signals are grants of nothing.
  predicate Barren(signals: seq<Signal>, i: nat) {
    i <= |signals| && forall j :: 0 <= j < i ==> signals[j] == Granted(0)
  }

  // Signal i is the first grant of something.
  predicate FirstReal(signals: seq<Signal>, i: nat) {
    i < |signals| && Barren(signals, i) && signals[i].Granted? && signals[i].amount > 0
  }

  // The context ends before any credit is granted.
  ghost predicate EndsFirst(signals: seq<Signal>) {
    exists i :: 0 <= i < |signals| && Barren(signals, i) && signals[i].ContextDone?
  }

  // How a take comes out. It is refused exactly if the gate is empty and the
  // context ends before any credit is granted, it waits exactly if neither
  // happens, and otherwise it takes: at once, or after the first real grant.
  lemma {:induction false} TakeMeans(g: Gate, limit: nat, signals: seq<Signal>)
    ensures var t := TakeAvailable(g, limit, signals);
            && (t.outcome.Refused? <==> g == Gate(0) && EndsFirst(signals))
            && (t.outcome.Waiting? <==> g == Gate(0) && Barren(signals, |signals|))
            && (g != Gate(0) ==> t.grants == [] && t.rest == signals)
            && (g == Gate(0) && t.outcome.Took? ==> t.grants != [] && FirstReal(signals, |t.grants| - 1))
    decreases |signals|
  {
    if g != Gate(0) || signals == [] {
      assert g.Gate? && g.credit == 0 ==> g == Gate(0);
    } else if signals[0] == Granted(0) {
      TakeMeans(g, limit, signals[1..]);
      BarrenNext(signals);
      if TakeAvailable(g, limit, signals[1..]).outcome.Took? {
        FirstRealNext(signals, |TakeAvailable(g, limit, signals[1..]).grants| - 1);
      }
    } else {
      NotBarren(signals);
    }
  }

  lemma NotBarren(signals: seq<Signal>)
    requires signals != [] && signals[0] != Granted(0)
    ensures !Barren(signals, |signals|)
    ensures EndsFirst(signals) <==> signals[0].ContextDone?
    ensures FirstReal(signals, 0) <==> signals[0].Granted?
  {
    assert Barren(signals, 0);
  }

  lemma BarrenCons(signals: seq<Signal>, i: nat)
    requires signals != [] && signals[0] == Granted(0) && 0 < i <= |signals|
    ensures Barren(signals, i) <==> Barren(signals[1..], i - 1)
  {
    if Barren(signals[1..], i - 1) {
      assert forall j :: 0 < j < i ==> signals[j] == signals[1..][j - 1];
    }
    if Barren(signals, i) {
      assert forall j :: 0 <= j < i - 1 ==> signals[1..][j] == signals[j + 1];
    }
  }

  lemma BarrenNext(signals: seq<Signal>)
    requires signals != [] && signals[0] == Granted(0)
    ensures Barren(signals, |signals|) <==> Barren(signals[1..], |signals| - 1)
    ensures EndsFirst(signals) <==> EndsFirst(signals[1..])
  {
    BarrenCons(signals, |signals|);
    if EndsFirst(signals) {
      var i :| 0 <= i < |signals| && Barren(signals, i) && signals[i].ContextDone?;
      BarrenCons(signals, i);
      assert signals[1..][i - 1] == signals[i];
    }
    if EndsFirst(signals[1..]) {
      var i :| 0 <= i < |signals[1..]| && Barren(signals[1..], i) && signals[1..][i].ContextDone?;
      BarrenCons(signals, i + 1);
      assert signals[i + 1] == signals[1..][i];
    }
  }

  lemma FirstRealNext(signals: seq<Signal>, i: nat)
    requires signals != [] && signals[0] == Granted(0) && FirstReal(signals[1..], i)
    ensures FirstReal(signals, i + 1)
  {
    BarrenCons(signals, i + 1);
  }

  // Consumed and left-over signals together are the signals there were.
  lemma {:induction false} TakeConsumesInOrder(g: Gate, limit: nat, signals: seq<Signal>)
    ensures var t := TakeAvailable(g, limit, signals);
            && |t.rest| <= |signals|
            && GrantsIn(signals) == t.grants + GrantsIn(t.rest)
    decreases |signals|
  {
    if g.NilGate? || g.credit > 0 || signals == [] || signals[0].ContextDone? {
    } else {
      TakeConsumesInOrder(Gate(Wrap64(g.credit + signals[0].amount)), limit, signals[1..]);
    }
  }

  class ResponseCreditGate {
    var credit: U64

    constructor (initial: U64)
      requires initial != 0
      ensures credit == initial
    {
      credit := initial;
    }

    static function State(g: ResponseCreditGate?): Gate
      reads g
    {
      if g == null then NilGate else Gate(g.credit)
    }

    static method New(initial: U64) returns (g: ResponseCreditGate?)
      ensures State(g) == NewGate(initial)
      ensures g != null ==> fresh(g)
    {
      if initial == 0 {
        return null;
      }
      g := new ResponseCreditGate(initial);
    }

    // `signals` is what the select statement delivers, in order; `rest` is what
    // this call left for later ones.
    static method Acquire(g: ResponseCreditGate?, limit: nat, signals: seq<Signal>)
      returns (outcome: Allowance, ghost grants: seq<U64>, rest: seq<Signal>)
      modifies g
      ensures Take(outcome, State(g), grants, rest) == TakeAvailable(old(State(g)), limit, signals)
    {
      grants := [];
      rest := signals;
      if g == null {
        return Took(limit), grants, rest;
      }
      ghost var goal := TakeAvailable(State(g), limit, signals);
      while g.credit == 0
        invariant var t := TakeAvailable(Gate(g.credit), limit, rest);
                  goal == t.(grants := grants + t.grants)
        decreases |rest|, g.credit == 0
      {
        if rest == [] {
          return Waiting, grants, rest;
        }
        var signal := rest[0];
        rest := rest[1..];
        match signal {
          case ContextDone =>
            return Refused, grants, rest;
          case Granted(amount) =>
            g.credit := Wrap64(g.credit + amount);
            grants := grants + [amount];
        }
      }
      if g.credit < limit {
        g.credit := g.credit - 1;
        return Took(1), grants, rest;
      }
      g.credit := g.credit - limit;
      return Took(limit), grants, rest;
    }
  }
}
