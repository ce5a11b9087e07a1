/** The concurrent in-flight limiter.  `try_reserve` reads the counter in one atomic step and
    adds to it in another, and keeps what it added even when it then answers `false`. */
module Cgroup {
  import opened Words
  import opened Counting

  /** `checked[t]` says that thread `t` is inside `try_reserve`, past its check and before its
      addition.  `held` counts the reservations answered with `true` and not yet released,
      `leaked` the additions that were answered with `false`. */
  datatype Limiter = Limiter(max: u32, inFlight: u32, checked: seq<bool>, held: nat, leaked: nat)

  datatype Step = Load(t: nat) | Add(t: nat) | Release

  predicate Enabled(s: Limiter, e: Step) {
    match e
    case Load(t) => t < |s.checked| && !s.checked[t]
    case Add(t) => t < |s.checked| && s.checked[t]
    case Release => s.held > 0
  }

  function Apply(s: Limiter, e: Step): Limiter
    requires Enabled(s, e)
  {
    match e
    case Load(t) => if s.inFlight >= s.max then s else s.(checked := s.checked[t := true])
    case Add(t) =>
      var added := s.(inFlight := Wrap32(s.inFlight + 1), checked := s.checked[t := false]);
      if s.inFlight < s.max then added.(held := s.held + 1) else added.(leaked := s.leaked + 1)
    case Release => s.(inFlight := Sub32(s.inFlight, 1), held := s.held - 1)
  }

  ghost predicate Runs(s: Limiter, trace: seq<Step>)
    decreases |trace|
  {
    trace == [] || (Enabled(s, trace[0]) && Runs(Apply(s, trace[0]), trace[1..]))
  }

  ghost function After(s: Limiter, trace: seq<Step>): Limiter
    requires Runs(s, trace)
    decreases |trace|
  {
    if trace == [] then s else After(Apply(s, trace[0]), trace[1..])
  }

  /** A fresh limiter used by `threads` threads. */
  function Start(max: u32, threads: nat): Limiter {
    Limiter(max, 0, seq(threads, _ => false), 0, 0)
  }

  ghost predicate Inv(s: Limiter) {
    var threads, racing := |s.checked|, Count(s.checked);
    && s.inFlight == s.held + s.leaked
    && s.held <= s.max
    && s.max + threads <= U32
    && (s.max == 0 ==> s.inFlight == 0 && racing == 0)
    && (s.max > 0 && threads > 0 ==> s.inFlight + racing <= s.max - 1 + threads)
    && (threads == 0 ==> s.inFlight == 0)
  }

  lemma StepKeepsInv(s: Limiter, e: Step)
    requires Inv(s) && Enabled(s, e)
    ensures Inv(Apply(s, e)) && Apply(s, e).max == s.max && |Apply(s, e).checked| == |s.checked|
  {
    match e
    case Load(t) =>
      CountUpdate(s.checked, t, true);
    case Add(t) =>
      CountUpdate(s.checked, t, false);
    case Release =>
  }

  lemma {:induction false} RunKeepsInv(s: Limiter, trace: seq<Step>)
    requires Inv(s) && Runs(s, trace)
    ensures Inv(After(s, trace)) && After(s, trace).max == s.max && |After(s, trace).checked| == |s.checked|
    decreases |trace|
  {
    if trace != [] {
      StepKeepsInv(s, trace[0]);
      RunKeepsInv(Apply(s, trace[0]), trace[1..]);
    }
  }

  lemma StartIsGood(max: u32, threads: nat)
    requires max + threads <= U32
    ensures Inv(Start(max, threads))
  {
    CountExtremes(Start(max, threads).checked);
  }

  /** In every interleaving of any number of threads, the reservations held never exceed the
      limit, and the counter is exactly what is held plus what was leaked; the counter itself
      can overshoot the limit, but by less than the number of threads. */
  lemma LimitHolds(max: u32, threads: nat, trace: seq<Step>)
    requires max + threads <= U32 && Runs(Start(max, threads), trace)
    ensures var s := After(Start(max, threads), trace);
            && s.held <= max
            && s.inFlight == s.held + s.leaked
            && (s.inFlight > 0 ==> s.inFlight <= max - 1 + threads)
  {
    StartIsGood(max, threads);
    RunKeepsInv(Start(max, threads), trace);
  }

  // ----- The overshoot is real -----

  lemma Join(s: Limiter, a: seq<Step>, b: seq<Step>)
    requires Runs(s, a) && Runs(After(s, a), b)
    ensures Runs(s, a + b) && After(s, a + b) == After(After(s, a), b)
    decreases |a|
  {
    if a == [] {
      assert a + b == b;
    } else {
      Join(Apply(s, a[0]), a[1..], b);
      assert (a + b)[1..] == a[1..] + b;
    }
  }

  lemma {:induction false} FillUp(max: u32, threads: nat, k: nat) returns (trace: seq<Step>)
    requires threads > 0 && max + threads <= U32 && k <= max
    ensures Runs(Start(max, threads), trace)
    ensures After(Start(max, threads), trace) == Start(max, threads).(inFlight := k, held := k)
  {
    if k == 0 {
      trace := [];
    } else {
      var before := FillUp(max, threads, k - 1);
      var s := After(Start(max, threads), before);
      var pair := [Load(0), Add(0)];
      assert pair[1..] == [Add(0)] && pair[1..][1..] == [];
      assert s.checked[0 := true][0 := false] == s.checked;
      assert Runs(Apply(s, Load(0)), [Add(0)]);
      Join(Start(max, threads), before, pair);
      trace := before + pair;
    }
  }

  /** `n` threads that find the last slot free all get past the check. */
  function AllPast(s: Limiter, n: nat): Limiter
    requires n <= |s.checked|
  {
    s.(checked := seq(n, _ => true) + s.checked[n..])
  }

  lemma {:induction false} AllLoad(s: Limiter, n: nat) returns (trace: seq<Step>)
    requires s.inFlight < s.max && n <= |s.checked| && forall i :: 0 <= i < |s.checked| ==> !s.checked[i]
    ensures Runs(s, trace) && After(s, trace) == AllPast(s, n)
  {
    if n == 0 {
      trace := [];
      assert AllPast(s, 0) == s;
    } else {
      var before := AllLoad(s, n - 1);
      var t := After(s, before);
      var one := [Load(n - 1)];
      assert one[1..] == [];
      assert t.checked[n - 1 := true] == AllPast(s, n).checked;
      Join(s, before, one);
      trace := before + one;
    }
  }

  lemma {:induction false} AllAdd(s: Limiter, n: nat) returns (trace: seq<Step>)
    requires n <= |s.checked| && s.inFlight + n < U32 && forall i :: 0 <= i < n ==> s.checked[i]
    ensures Runs(s, trace) && After(s, trace).inFlight == s.inFlight + n
    ensures |After(s, trace).checked| == |s.checked|
    decreases n
  {
    if n == 0 {
      trace := [];
    } else {
      var t := Apply(s, Add(n - 1));
      var rest := AllAdd(t, n - 1);
      trace := [Add(n - 1)] + rest;
      assert trace[1..] == rest;
    }
  }

  /** For every limit and every number of threads some interleaving drives the counter all the
      way to `max - 1 + threads`: the bound of `LimitHolds` cannot be improved. */
  lemma OvershootIsTight(max: u32, threads: nat)
    requires max > 0 && threads > 0 && max + threads <= U32
    ensures exists trace :: Runs(Start(max, threads), trace) && After(Start(max, threads), trace).inFlight == max - 1 + threads
  {
    var s := Start(max, threads);
    var fill := FillUp(max, threads, max - 1);
    var full := After(s, fill);
    var load := AllLoad(full, threads);
    var add := AllAdd(AllPast(full, threads), threads);
    Join(full, load, add);
    Join(s, fill, load + add);
    assert After(s, fill + (load + add)).inFlight == max - 1 + threads;
  }

  // ----- Leaks -----

  /** A reservation leaks exactly when, between its check and its addition, others took the
      last free slots; and nothing ever gives a leaked slot back. */
  lemma LeakIsExact(s: Limiter, e: Step)
    requires Inv(s) && Enabled(s, e)
    ensures Apply(s, e).leaked >= s.leaked
    ensures Apply(s, e).leaked > s.leaked <==> e.Add? && s.held + s.leaked >= s.max
  {
  }

  lemma {:induction false} LeaksAreForever(s: Limiter, trace: seq<Step>)
    requires Inv(s) && Runs(s, trace)
    ensures After(s, trace).leaked >= s.leaked
    ensures s.leaked >= s.max ==> After(s, trace).held <= s.held
    decreases |trace|
  {
    if trace != [] {
      StepKeepsInv(s, trace[0]);
      LeakIsExact(s, trace[0]);
      LeaksAreForever(Apply(s, trace[0]), trace[1..]);
    }
  }

  lemma RunsOn(s: Limiter, trace: seq<Step>, e: Step) returns (longer: seq<Step>)
    requires Runs(s, trace) && Enabled(After(s, trace), e)
    ensures longer == trace + [e] && Runs(s, longer) && After(s, longer) == Apply(After(s, trace), e)
  {
    longer := trace + [e];
    assert [e][1..] == [];
    Join(s, trace, [e]);
  }

  /** Two threads race for the last free slot: one gets it, the other leaks one. */
  lemma RaceForTheLast(max: u32, threads: nat, before: seq<Step>) returns (trace: seq<Step>)
    requires threads > 1 && max + threads <= U32 && Runs(Start(max, threads), before)
    requires var s := After(Start(max, threads), before);
             s.max == max && s.inFlight + 1 == max && s.checked == Start(max, threads).checked
    ensures Runs(Start(max, threads), trace)
    ensures var s := After(Start(max, threads), before);
            After(Start(max, threads), trace) == s.(inFlight := max + 1, held := s.held + 1, leaked := s.leaked + 1)
  {
    hide Runs, After;
    var s := After(Start(max, threads), before);
    trace := RunsOn(Start(max, threads), before, Load(0));
    trace := RunsOn(Start(max, threads), trace, Load(1));
    trace := RunsOn(Start(max, threads), trace, Add(0));
    trace := RunsOn(Start(max, threads), trace, Add(1));
    assert s.checked[0 := true][1 := true][0 := false][1 := false] == s.checked;
  }

  /** Round after round the race leaks one more slot, and the holders give theirs back. */
  lemma {:induction false} LeakRounds(max: u32, threads: nat, r: nat) returns (trace: seq<Step>)
    requires threads > 1 && max + threads <= U32 && r < max
    ensures Runs(Start(max, threads), trace)
    ensures After(Start(max, threads), trace) == Start(max, threads).(inFlight := max - 1, held := max - 1 - r, leaked := r)
  {
    if r == 0 {
      trace := FillUp(max, threads, max - 1);
    } else {
      hide Runs, After;
      trace := LeakRounds(max, threads, r - 1);
      trace := RaceForTheLast(max, threads, trace);
      trace := RunsOn(Start(max, threads), trace, Release);
      trace := RunsOn(Start(max, threads), trace, Release);
    }
  }

  /** For every limit, two threads that keep racing for the last slot can leave the limiter
      refusing everybody for good, with nothing held. */
  lemma RaceCanShutTheLimiter(max: u32, threads: nat) returns (race: seq<Step>)
    requires max > 0 && threads > 1 && max + threads <= U32
    ensures Runs(Start(max, threads), race)
    ensures var s := After(Start(max, threads), race);
            && s.held == 0 && s.leaked == max
            && forall trace :: Runs(s, trace) ==> After(s, trace).held == 0
  {
    hide Runs, After;
    race := LeakRounds(max, threads, max - 1);
    race := RaceForTheLast(max, threads, race);
    race := RunsOn(Start(max, threads), race, Release);
    var s := After(Start(max, threads), race);
    StartIsGood(max, threads);
    RunKeepsInv(Start(max, threads), race);
    forall trace | Runs(s, trace) ensures After(s, trace).held == 0 {
      LeaksAreForever(s, trace);
    }
  }

  /** Every check is made while nobody else is between check and addition. */
  ghost predicate Serial(s: Limiter, trace: seq<Step>)
    requires Runs(s, trace)
    decreases |trace|
  {
    trace == [] || ((trace[0].Load? ==> Count(s.checked) == 0) && Serial(Apply(s, trace[0]), trace[1..]))
  }

  /** Reservations that do not overlap never leak, so `try_reserve` is then exact: the check
      passes if and only if fewer than `max` are held. */
  lemma SerialUseIsExact(max: u32, threads: nat, trace: seq<Step>, t: nat)
    requires max + threads <= U32 && Runs(Start(max, threads), trace) && Serial(Start(max, threads), trace)
    requires t < threads
    ensures var s := After(Start(max, threads), trace);
            && s.leaked == 0
            && (Count(s.checked) == 0 ==>
                  |s.checked| == threads && !s.checked[t] && (Apply(s, Load(t)).checked[t] <==> s.held < max))
  {
    StartIsGood(max, threads);
    CountExtremes(Start(max, threads).checked);
    RunKeepsInv(Start(max, threads), trace);
    SerialRun(Start(max, threads), trace);
    CountExtremes(After(Start(max, threads), trace).checked);
  }

  lemma {:induction false} SerialRun(s: Limiter, trace: seq<Step>)
    requires Inv(s) && Runs(s, trace) && Serial(s, trace)
    requires s.leaked == 0 && Count(s.checked) <= 1 && (Count(s.checked) == 1 ==> s.inFlight < s.max)
    ensures After(s, trace).leaked == 0
    decreases |trace|
  {
    if trace != [] {
      var e := trace[0];
      StepKeepsInv(s, e);
      match e {
        case Load(t) => CountUpdate(s.checked, t, true);
        case Add(t) =>
          CountUpdate(s.checked, t, false);
          CountExtremes(s.checked);
        case Release =>
      }
      SerialRun(Apply(s, e), trace[1..]);
    }
  }

  // ----- The object -----

  /** The limiter's counter, shared by all threads; `model` accounts for the threads that are
      inside `try_reserve` and for the slots held and leaked. */
  class ResourceLimiter {
    const max: u32
    var inFlight: u32
    var model: Limiter
    ghost var trace: seq<Step>
    const threads: nat

    ghost predicate Valid()
      reads this
    {
      && max + threads <= U32
      && Runs(Start(max, threads), trace) && After(Start(max, threads), trace) == model
      && inFlight == model.inFlight && model.max == max && |model.checked| == threads
    }

    constructor (max: u32, threads: nat)
      requires max + threads <= U32
      ensures Valid() && this.max == max && this.threads == threads && inFlight == 0 && trace == []
    {
      this.max, this.threads := max, threads;
      inFlight := 0;
      model := Start(max, threads);
      trace := [];
    }

    ghost method Record(e: Step, before: Limiter)
      requires Runs(Start(max, threads), trace) && After(Start(max, threads), trace) == before && Enabled(before, e)
      requires max + threads <= U32 && model == Apply(before, e) && inFlight == model.inFlight
      modifies this`trace
      ensures Valid() && trace == old(trace) + [e]
    {
      assert [e][1..] == [];
      Join(Start(max, threads), trace, [e]);
      trace := trace + [e];
      StartIsGood(max, threads);
      RunKeepsInv(Start(max, threads), trace);
    }

    /** The other threads take any number of steps while `me` is between check and addition. */
    method Interfere(me: nat)
      requires Valid() && me < threads && model.checked[me]
      modifies this
      ensures Valid() && model.checked[me] && old(trace) <= trace
    {
      var n: nat := *;
      while n > 0
        invariant Valid() && model.checked[me] && old(trace) <= trace
      {
        var e: Step := *;
        if Enabled(model, e) && e != Add(me) {
          ghost var before := model;
          model := Apply(model, e);
          inFlight := model.inFlight;
          Record(e, before);
        }
        n := n - 1;
      }
    }

    /** Refuses at once when the limit is reached.  Otherwise `found` is the state in which the
        addition finds the limiter: the answer is `true` if and only if the addition took a slot,
        and on `false` it leaked one. */
    method TryReserve(me: nat) returns (r: bool, ghost found: Limiter)
      requires Valid() && me < threads && !model.checked[me]
      modifies this
      ensures Valid() && !model.checked[me] && old(trace) < trace
      ensures old(inFlight) >= max ==> !r && trace == old(trace) + [Load(me)] && model == old(model)
      ensures old(inFlight) < max ==> |trace| >= |old(trace)| + 2 && trace[|trace| - 1] == Add(me)
      ensures old(inFlight) < max ==> (r <==> inFlight <= max) && inFlight > 0
      ensures old(inFlight) < max ==>
                Enabled(found, Add(me)) && model == Apply(found, Add(me))
                && model.held == found.held + (if r then 1 else 0) && model.leaked == found.leaked + (if r then 0 else 1)
    {
      var current := inFlight;
      ghost var before := model;
      model := Apply(model, Load(me));
      Record(Load(me), before);
      if current >= max {
        return false, before;
      }
      Interfere(me);
      found := model;
      var previous := inFlight;
      inFlight := Wrap32(inFlight + 1);
      before := model;
      model := Apply(model, Add(me));
      StartIsGood(max, threads);
      RunKeepsInv(Start(max, threads), trace);
      CountExtremes(before.checked);
      Record(Add(me), before);
      r := previous < max;
    }

    method ReleaseSlot()
      requires Valid() && model.held > 0
      modifies this
      ensures Valid() && inFlight == old(inFlight) - 1 && model.held == old(model).held - 1 && trace == old(trace) + [Release]
    {
      ghost var before := model;
      inFlight := Sub32(inFlight, 1);
      model := Apply(model, Release);
      StartIsGood(max, threads);
      RunKeepsInv(Start(max, threads), trace);
      Record(Release, before);
    }
  }
}
