/** The pool of Torus instances: round-robin by a wrapping 32-bit counter, batches that stop at
    the first error, and draining instance after instance. */
module TorusPool {
  import opened Flows
  import opened Results
  import opened Words

  /** The instance that attempt number `k` (from zero, in the order of the atomic counter) goes
      to. */
  function Target(k: nat, n: nat): (i: nat)
    requires n > 0
    ensures i < n
  {
    Wrap32(k) % n
  }

  /** Before the wrap the counter is the attempt number; afterwards every lap repeats. */
  lemma TargetInLap(laps: nat, m: nat, n: nat)
    requires n > 0 && m < U32
    ensures Target(m, n) == m % n && Target(laps * U32 + m, n) == Target(m, n)
  {
    Quotient(laps * U32 + m, U32, laps, m);
    Quotient(m, U32, 0, m);
  }

  /** How many of the first `k` attempts instance `i` has received. */
  function Received(k: nat, n: nat, i: nat): nat
    requires n > 0
  {
    if k == 0 then 0 else Received(k - 1, n, i) + (if Target(k - 1, n) == i then 1 else 0)
  }

  /** Rounded-up division moves exactly when the remainder passes `i`. */
  lemma CeilingStep(k: nat, n: nat, i: nat)
    requires i < n
    ensures (k + 1 + (n - 1 - i)) / n == (k + (n - 1 - i)) / n + (if k % n == i then 1 else 0)
  {
    var q, r := k / n, k % n;
    assert k == n * q + r;
    assert n * (q + 1) == n * q + n;
    if r > i {
      Quotient(k + (n - 1 - i), n, q + 1, r - 1 - i);
      Quotient(k + 1 + (n - 1 - i), n, q + 1, r - i);
    } else if r == i {
      Quotient(k + (n - 1 - i), n, q, n - 1);
      Quotient(k + 1 + (n - 1 - i), n, q + 1, 0);
    } else {
      Quotient(k + (n - 1 - i), n, q, r + n - 1 - i);
      Quotient(k + 1 + (n - 1 - i), n, q, r + n - i);
    }
  }

  /** Until the counter has wrapped, instance `i` has received exactly its rounded-up share. */
  lemma {:induction false} ShareBeforeWrap(k: nat, n: nat, i: nat)
    requires i < n && k <= U32
    ensures Received(k, n, i) == (k + (n - 1 - i)) / n
  {
    hide Target;
    if k == 0 {
      Quotient(n - 1 - i, n, 0, n - 1 - i);
    } else {
      ShareBeforeWrap(k - 1, n, i);
      CeilingStep(k - 1, n, i);
      TargetInLap(0, k - 1, n);
    }
  }

  /** Every lap of the counter repeats the first. */
  lemma {:induction false} LapsRepeat(laps: nat, m: nat, n: nat, i: nat)
    requires n > 0 && m <= U32
    ensures Received(laps * U32 + m, n, i) == laps * Received(U32, n, i) + Received(m, n, i)
    decreases laps, m
  {
    if m > 0 {
      hide Target;
      LapsRepeat(laps, m - 1, n, i);
      TargetInLap(laps, m - 1, n);
    } else if laps > 0 {
      LapsRepeat(laps - 1, U32, n, i);
      assert laps * Received(U32, n, i) == (laps - 1) * Received(U32, n, i) + Received(U32, n, i);
    }
  }

  /** Within a lap an earlier instance leads a later one by at most one attempt. */
  lemma LeadBeforeWrap(k: nat, n: nat, i: nat, j: nat)
    requires i <= j < n && k <= U32
    ensures Received(k, n, j) <= Received(k, n, i) <= Received(k, n, j) + 1
  {
    ShareBeforeWrap(k, n, i);
    ShareBeforeWrap(k, n, j);
    CloseQuotients(k + (n - 1 - j), j - i, n);
  }

  lemma CloseQuotients(a: nat, d: nat, n: nat)
    requires d < n
    ensures a / n <= (a + d) / n <= a / n + 1
  {
    var q, r := a / n, a % n;
    assert a == n * q + r;
    assert n * (q + 1) == n * q + n;
    if r + d < n {
      Quotient(a + d, n, q, r + d);
    } else {
      Quotient(a + d, n, q + 1, r + d - n);
    }
  }

  /** After any number of attempts, two instances differ by at most one more than the number of
      completed wraps, and the earlier one is ahead. */
  lemma FairUpToWraps(k: nat, n: nat, i: nat, j: nat)
    requires i <= j < n
    ensures Received(k, n, j) <= Received(k, n, i) <= Received(k, n, j) + 1 + k / U32
  {
    hide Received;
    var laps, m := k / U32, k % U32;
    LapsRepeat(laps, m, n, i);
    LapsRepeat(laps, m, n, j);
    LeadBeforeWrap(U32, n, i, j);
    LeadBeforeWrap(m, n, i, j);
    Laps(laps, Received(U32, n, i), Received(U32, n, j));
  }

  lemma Laps(laps: nat, x: nat, y: nat)
    requires y <= x <= y + 1
    ensures laps * y <= laps * x <= laps * y + laps
  {
    if x == y + 1 {
      assert laps * (y + 1) == laps * y + laps;
    }
  }

  ghost predicate FairForever(n: nat)
    requires n > 0
  {
    forall k: nat, i: nat, j: nat :: i < n && j < n ==> Received(k, n, i) <= Received(k, n, j) + 1
  }

  /** Instances stay within one attempt of each other for ever if and only if their number
      divides 2^32. */
  lemma FairForeverIffDivides(n: nat)
    requires n > 0
    ensures FairForever(n) <==> U32 % n == 0
  {
    if U32 % n == 0 {
      forall k: nat, i: nat, j: nat | i < n && j < n ensures Received(k, n, i) <= Received(k, n, j) + 1 {
        WholeLap(n, i);
        WholeLap(n, j);
        LapsRepeat(k / U32, k % U32, n, i);
        LapsRepeat(k / U32, k % U32, n, j);
        LeadBeforeWrap(k % U32, n, if i <= j then i else j, if i <= j then j else i);
      }
    } else {
      TwoLaps(n);
      assert Received(2 * U32, n, 0) > Received(2 * U32, n, n - 1) + 1;
    }
  }

  lemma WholeLap(n: nat, i: nat)
    requires i < n && U32 % n == 0
    ensures Received(U32, n, i) == U32 / n
  {
    ShareBeforeWrap(U32, n, i);
    Quotient(U32 + (n - 1 - i), n, U32 / n, n - 1 - i);
  }

  /** When the number of instances does not divide 2^32, every lap favours the first over the
      last by one. */
  lemma TwoLaps(n: nat)
    requires n > 0 && U32 % n != 0
    ensures Received(2 * U32, n, 0) == Received(2 * U32, n, n - 1) + 2
  {
    var q, r := U32 / n, U32 % n;
    assert U32 == n * q + r;
    assert n * (q + 1) == n * q + n;
    ShareBeforeWrap(U32, n, 0);
    ShareBeforeWrap(U32, n, n - 1);
    Quotient(U32 + (n - 1), n, q + 1, r - 1);
    LapsRepeat(1, U32, n, 0);
    LapsRepeat(1, U32, n, n - 1);
  }

  // ----- The object -----

  datatype Outcome = Done(count: nat) | Failed(error: int)

  /** One attempt: the instance it went to, its flow, and what the instance answered. */
  datatype Attempt = Attempt(target: nat, flow: Flow, outcome: Outcome)

  function Concat(queues: seq<seq<TorusResult>>): seq<TorusResult> {
    if queues == [] then [] else Concat(queues[..|queues| - 1]) + queues[|queues| - 1]
  }

  function Sum(xs: seq<u32>): nat {
    if xs == [] then 0 else Sum(xs[..|xs| - 1]) + xs[|xs| - 1]
  }

  /** The pieces stand in the concatenation one behind the other, in the order of the instances. */
  lemma {:induction false} ConcatInOrder(queues: seq<seq<TorusResult>>, i: nat)
    requires i < |queues|
    ensures Concat([]) == [] && Concat(queues) == Concat(queues[..i]) + queues[i] + Concat(queues[i + 1..])
    decreases |queues|
  {
    var n := |queues| - 1;
    if i < n {
      var front, rest := queues[..n], queues[i + 1..];
      ConcatInOrder(front, i);
      assert front[..i] == queues[..i] && front[i + 1..] == rest[..|rest| - 1] && rest[|rest| - 1] == queues[n];
      assert Concat(front[..i]) + front[i] + Concat(front[i + 1..]) + queues[n] == Concat(queues[..i]) + queues[i] + (Concat(rest[..|rest| - 1]) + queues[n]);
    }
  }

  /** Every instance counts once in the sum. */
  lemma {:induction false} SumInParts(xs: seq<u32>, i: nat)
    requires i < |xs|
    ensures Sum([]) == 0 && Sum(xs) == Sum(xs[..i]) + xs[i] + Sum(xs[i + 1..])
    decreases |xs|
  {
    var n := |xs| - 1;
    if i < n {
      var front, rest := xs[..n], xs[i + 1..];
      SumInParts(front, i);
      assert front[..i] == xs[..i] && front[i + 1..] == rest[..|rest| - 1] && rest[|rest| - 1] == xs[n];
    }
  }

  function CountTo(log: seq<Attempt>, i: nat): nat {
    if log == [] then 0 else CountTo(log[..|log| - 1], i) + (if log[|log| - 1].target == i then 1 else 0)
  }

  /** A log written by the counter gives every instance what `Received` says. */
  lemma {:induction false} LogCounts(log: seq<Attempt>, n: nat, i: nat)
    requires n > 0 && forall k :: 0 <= k < |log| ==> log[k].target == Target(k, n)
    ensures CountTo(log, i) == Received(|log|, n, i)
  {
    if log != [] {
      LogCounts(log[..|log| - 1], n, i);
    }
  }

  /** `log` are the attempts so far, `queues` the completions waiting in each instance and
      `pending` each instance's in-flight counter. */
  class Pool {
    const n: nat
    var next: u32
    var log: seq<Attempt>
    var queues: array<seq<TorusResult>>
    var pending: array<u32>

    ghost predicate Valid()
      reads this
    {
      && n > 0 && queues.Length == n && pending.Length == n && next == Wrap32(|log|)
      && forall k :: 0 <= k < |log| ==> log[k].target == Target(k, n)
    }

    constructor (n: nat)
      requires n > 0
      ensures Valid() && this.n == n && log == [] && fresh(queues) && fresh(pending)
    {
      this.n := n;
      next, log := 0, [];
      queues := new seq<TorusResult>[n](_ => []);
      pending := new u32[n](_ => 0);
    }

    /** What the fairness theorems say about this pool. */
    lemma Shares(i: nat)
      requires Valid() && i < n
      ensures CountTo(log, i) == Received(|log|, n, i)
      ensures |log| <= U32 ==> CountTo(log, i) == (|log| + (n - 1 - i)) / n
    {
      LogCounts(log, n, i);
      if |log| <= U32 { ShareBeforeWrap(|log|, n, i); }
    }

    method Submit(flow: Flow) returns (r: Outcome)
      requires Valid()
      modifies this`next, this`log
      ensures Valid() && log == old(log) + [Attempt(Target(|old(log)|, n), flow, r)] && (r.Done? ==> r.count == 1)
    {
      hide Wrap32;
      var idx := next % n;
      LogStep(|log|);
      next := Wrap32(next + 1);
      var accepted: bool := *;
      var error: int := *;
      r := if accepted then Done(1) else Failed(error);
      log := log + [Attempt(idx, flow, r)];
    }

    lemma LogStep(k: nat)
      ensures Wrap32(Wrap32(k) + 1) == Wrap32(k + 1)
    {
    }

    /** Attempts the flows in order and stops at the first that is not accepted. */
    method SubmitBatch(flows: seq<Flow>) returns (r: Outcome)
      requires Valid()
      modifies this`next, this`log
      ensures Valid() && old(log) <= log
      ensures var made := log[|old(log)|..];
              && |made| <= |flows| && (forall k :: 0 <= k < |made| ==> made[k].flow == flows[k])
              && (r.Done? <==> |made| == |flows| && forall k :: 0 <= k < |made| ==> made[k].outcome.Done?)
              && (r.Done? ==> r.count == |flows|)
              && (r.Failed? ==> made != [] && made[|made| - 1].outcome == r && forall k :: 0 <= k < |made| - 1 ==> made[k].outcome.Done?)
    {
      hide Valid, Target;
      var total := 0;
      ghost var made: seq<Attempt> := [];
      for i := 0 to |flows|
        invariant Valid() && log == old(log) + made && |made| == i == total
        invariant forall k :: 0 <= k < i ==> made[k].flow == flows[k] && made[k].outcome.Done?
      {
        var one := Submit(flows[i]);
        made := made + [log[|log| - 1]];
        assert log[|old(log)|..] == made;
        if one.Failed? {
          return one;
        }
        total := total + 1;
      }
      r := Done(total);
    }

    /** Empties the instances in order; an instance that fails ends the call, and what was
        collected up to there stays in the results. */
    method Reap(results: seq<TorusResult>) returns (filled: seq<TorusResult>, r: Outcome)
      requires Valid()
      modifies queues
      ensures Valid()
      ensures r.Done? ==> filled == results + Concat(old(queues[..])) && r.count == |filled| - |results|
      ensures r.Done? ==> forall i :: 0 <= i < n ==> queues[i] == []
      ensures r.Failed? ==>
                exists m ::
                  0 <= m < n && filled == results + Concat(old(queues[..m]))
                  && (forall i :: 0 <= i < m ==> queues[i] == [])
                  && (forall i :: m <= i < n ==> queues[i] == old(queues[i]))
    {
      filled := results;
      var total := 0;
      for i := 0 to n
        invariant filled == results + Concat(old(queues[..])[..i]) && total == |filled| - |results|
        invariant forall k :: 0 <= k < i ==> queues[k] == []
        invariant forall k :: i <= k < n ==> queues[k] == old(queues[k])
      {
        var fails: bool := *;
        if fails {
          var error: int := *;
          assert old(queues[..])[..i] == old(queues[..i]);
          return filled, Failed(error);
        }
        assert old(queues[..])[..i + 1][..i] == old(queues[..])[..i];
        filled := filled + queues[i];
        total := total + |queues[i]|;
        queues[i] := [];
      }
      assert old(queues[..])[..n] == old(queues[..]);
      r := Done(total);
    }

    /** The sum of the instances' counters, in 32 bits. */
    method InFlight() returns (r: u32)
      requires Valid()
      ensures r == Sum(pending[..]) % U32
    {
      r := 0;
      for i := 0 to n
        invariant r == Sum(pending[..i]) % U32
      {
        assert pending[..i + 1][..i] == pending[..i];
        r := Wrap32(r + pending[i]);
      }
      assert pending[..n] == pending[..];
    }
  }
}
