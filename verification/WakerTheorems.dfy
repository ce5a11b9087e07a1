/** What the completion protocol guarantees over all runs, and exactly where it does not. */
module WakerTheorems {
  import opened Words
  import opened WakerProtocol

  lemma {:induction false} AllocsGrow(s: Sys, trace: seq<Step>)
    requires Runs(s, trace)
    ensures s.h.allocs <= After(s, trace).h.allocs
    decreases |trace|
  {
    if trace != [] {
      AllocsGrow(Apply(s, trace[0]), trace[1..]);
    }
  }

  /** The invariant holds throughout every run that makes at most 2^64 allocations. */
  lemma {:induction false} RunKeepsInv(s: Sys, trace: seq<Step>)
    requires Inv(s) && Runs(s, trace) && After(s, trace).h.allocs <= U64
    ensures Inv(After(s, trace))
    decreases |trace|
  {
    if trace != [] {
      AllocsGrow(Apply(s, trace[0]), trace[1..]);
      StepKeepsInv(s, trace[0]);
      RunKeepsInv(Apply(s, trace[0]), trace[1..]);
    }
  }

  /** The bound of 2^64 is exact: it is where the wrapping id counter first repeats itself. */
  lemma AllocIdsUnique(n: nat)
    ensures (forall i, j :: 0 <= i < j < n ==> IdOf(i) != IdOf(j)) <==> n <= U64
  {
    if n <= U64 {
      forall i, j | 0 <= i < j < n ensures IdOf(i) != IdOf(j) {
        IdsDistinct(i, j);
      }
    } else {
      IdsDistinct(0, U64);
      assert IdOf(0) == IdOf(U64);
    }
  }

  /** Every completion the backend ever produced is in exactly one place: not yet reaped, not
      yet dispatched, waiting in `results`, taken by the future that submitted the flow, or
      discarded by that future's drop.  Wherever it is, it is the value that was produced. */
  lemma ExactlyOnce(trace: seq<Step>, id: u64)
    requires Runs(Start(), trace) && After(Start(), trace).h.allocs <= U64
    requires id in After(Start(), trace).h.produced
    ensures var s := After(Start(), trace);
            && Has(s, id)
            && B(id in Ids(s.queue)) + B(id in Ids(s.batch)) + B(id in s.results)
               + B(s.futs[s.h.owner[id]].got.Some?) + B(id in s.h.discarded) == 1
            && (forall c :: (c in s.queue || c in s.batch) && c.userData == id ==> c.value == s.h.produced[id].value)
            && (id in s.results ==> s.results[id] == Completion(s.h.produced[id].value, id))
            && (s.futs[s.h.owner[id]].got.Some? ==> s.futs[s.h.owner[id]].got.value == Completion(s.h.produced[id].value, id))
  {
    var s := After(Start(), trace);
    StartIsGood();
    RunKeepsInv(Start(), trace);
    assert FlowInv(FlowOf(s, id), id);
  }

  /** A future that became `Ready` returns the completion produced for the flow that it
      submitted itself, once. */
  lemma Routing(trace: seq<Step>, f: nat)
    requires Runs(Start(), trace) && After(Start(), trace).h.allocs <= U64
    requires var s := After(Start(), trace); f < |s.futs| && s.futs[f].pc == Ready
    ensures var s := After(Start(), trace);
            var me := s.futs[f];
            && me.id.Some? && me.submits == 1
            && me.id.value in s.h.produced && s.h.produced[me.id.value].op == me.op
            && me.got == Some(Completion(s.h.produced[me.id.value].value, me.id.value))
  {
    var s := After(Start(), trace);
    StartIsGood();
    RunKeepsInv(Start(), trace);
    assert HoldsId(s, f);
    assert FlowInv(FlowOf(s, s.futs[f].id.value), s.futs[f].id.value);
  }

  /** No two futures ever hold the same id, and none submits twice. */
  lemma IdsNeverShared(trace: seq<Step>, f: nat, g: nat)
    requires Runs(Start(), trace) && After(Start(), trace).h.allocs <= U64
    requires var s := After(Start(), trace); f < |s.futs| && g < |s.futs| && f != g
    ensures var s := After(Start(), trace);
            && (s.futs[f].id.Some? ==> s.futs[f].id != s.futs[g].id)
            && s.futs[f].submits <= 1
  {
    var s := After(Start(), trace);
    StartIsGood();
    RunKeepsInv(Start(), trace);
    assert HoldsId(s, f) && HoldsId(s, g);
    if s.futs[f].id.Some? {
      assert FlowInv(FlowOf(s, s.futs[f].id.value), s.futs[f].id.value);
    }
  }

  /** Registered wakers belong to futures that are waiting (or have just taken their result),
      and results left in the table belong to waiting, half-dropped or dropped futures, or to
      refused ones. */
  lemma TablesHoldOnlyLiveIds(trace: seq<Step>, id: u64)
    requires Runs(Start(), trace) && After(Start(), trace).h.allocs <= U64
    ensures var s := After(Start(), trace);
            && (id in s.wakers || id in s.results ==> Has(s, id))
            && (id in s.wakers ==>
                  var f := s.h.owner[id];
                  (s.futs[f].pc in {Registered, Taken} || s.futs[f].pc.Parked?) && s.wakers[id] == Waker(f, s.futs[f].polls))
            && (id in s.results ==>
                  var pc := s.futs[s.h.owner[id]].pc;
                  pc in {Submitted, Registered, Dropping, Dropped, Failed} || pc.Parked?)
  {
    var s := After(Start(), trace);
    StartIsGood();
    RunKeepsInv(Start(), trace);
    if id in s.h.owner {
      assert HoldsId(s, s.h.owner[id]);
      assert FlowInv(FlowOf(s, id), id);
    }
  }

  // ----- Order -----

  /** The completions the backend has produced in a run, oldest first. */
  function Produced(trace: seq<Step>): seq<Completion> {
    if trace == [] then []
    else (if trace[0].Finish? then [Completion(trace[0].value, trace[0].id)] else []) + Produced(trace[1..])
  }

  /** The completions the reaper has put into the results table in a run, oldest first. */
  ghost function Dispatched(s: Sys, trace: seq<Step>): seq<Completion>
    requires Runs(s, trace)
    decreases |trace|
  {
    if trace == [] then []
    else (if trace[0].Insert? then [s.batch[0]] else []) + Dispatched(Apply(s, trace[0]), trace[1..])
  }

  /** Over every run, the completions dispatched, followed by those in the reaper's batch and those
      still queued, are the ones the backend has produced, in the order in which it did. */
  lemma DispatchIsFifo(trace: seq<Step>)
    requires Runs(Start(), trace)
    ensures var s := After(Start(), trace); Dispatched(Start(), trace) + s.batch + s.queue == Produced(trace)
  {
    FifoRun(Start(), trace);
  }

  lemma {:induction false} FifoRun(s: Sys, trace: seq<Step>)
    requires Runs(s, trace)
    ensures var t := After(s, trace);
            Dispatched(s, trace) + t.batch + t.queue == s.batch + s.queue + Produced(trace)
    decreases |trace|
  {
    if trace != [] {
      var e, rest := trace[0], trace[1..];
      var u := Apply(s, e);
      FifoStep(s, e);
      FifoRun(u, rest);
      hide Apply, Enabled, Runs;
      var t := After(u, rest);
      hide After;
      Regroup(if e.Insert? then [s.batch[0]] else [], if e.Finish? then [Completion(e.value, e.id)] else [],
              Dispatched(u, rest), Produced(rest), u.batch + u.queue, s.batch + s.queue, t.batch, t.queue);
    }
  }

  lemma Regroup<T>(first: seq<T>, last: seq<T>, done: seq<T>, made: seq<T>, mid: seq<T>, before: seq<T>, batch: seq<T>, queue: seq<T>)
    requires first + mid == before + last && done + batch + queue == mid + made
    ensures first + done + batch + queue == before + (last + made)
  {
    assert first + done + batch + queue == first + (done + batch + queue);
    assert first + (mid + made) == first + mid + made;
    assert before + last + made == before + (last + made);
  }

  lemma FifoStep(s: Sys, e: Step)
    requires Enabled(s, e)
    ensures var t := Apply(s, e);
            (if e.Insert? then [s.batch[0]] else []) + (t.batch + t.queue)
            == s.batch + s.queue + (if e.Finish? then [Completion(e.value, e.id)] else [])
  {
  }

  // ----- Wake-ups -----

  /** A future parked by either arm whose completion has reached `results`. */
  ghost predicate Delivered(s: Sys, f: nat, arm: Arm) {
    f < |s.futs| && s.futs[f].pc == Parked(arm) && s.futs[f].id.Some? && s.futs[f].id.value in s.results
  }

  predicate WokenSinceLastPoll(s: Sys, f: nat)
    requires f < |s.futs|
  {
    Waker(f, s.futs[f].polls) in s.h.woken
  }

  /** The reaper is between the two halves of `complete` for this future, whose latest waker
      it is about to find. */
  predicate WakeDue(s: Sys, f: nat)
    requires f < |s.futs| && s.futs[f].id.Some?
  {
    var id := s.futs[f].id.value;
    s.waking == Some(id) && id in s.wakers && s.wakers[id] == Waker(f, s.futs[f].polls)
  }

  /** No wake-up is lost by the Waiting arm: it registers first and looks afterwards. */
  lemma WaitingArmIsWoken(trace: seq<Step>, f: nat)
    requires Runs(Start(), trace) && After(Start(), trace).h.allocs <= U64
    requires Delivered(After(Start(), trace), f, WaitingArm)
    ensures var s := After(Start(), trace); WokenSinceLastPoll(s, f) != WakeDue(s, f)
  {
    var s := After(Start(), trace);
    StartIsGood();
    RunKeepsInv(Start(), trace);
    assert HoldsId(s, f);
    assert FlowInv(FlowOf(s, s.futs[f].id.value), s.futs[f].id.value);
  }

  /** At position `j` of the run the reaper looks for a waker of `id` and finds none. */
  ghost predicate Overlooked(s: Sys, trace: seq<Step>, j: nat, id: u64) {
    && j < |trace| && trace[j] == Wake && Runs(s, trace[..j])
    && After(s, trace[..j]).waking == Some(id) && id !in After(s, trace[..j]).wakers
  }

  /** The wake half of `complete` for `id` ran between the submission and the registration of
      future `f`'s first poll. */
  ghost predicate Overtaken(trace: seq<Step>, f: nat, id: u64) {
    exists j :: 0 <= j < |trace| && trace[j] == Wake && Runs(Start(), trace[..j])
                && After(Start(), trace[..j]).waking == Some(id)
                && SubmitOk(f) in trace[..j] && RegisterInit(f) in trace[j + 1..]
  }

  /** The Init arm submits first and registers afterwards.  A delivered future it parked is
      left unwoken, with no wake-up due, if and only if the reaper's wake half for its id came
      after its submission and before its registration. */
  lemma InitArmIsWokenUnlessOvertaken(trace: seq<Step>, f: nat)
    requires Runs(Start(), trace) && After(Start(), trace).h.allocs <= U64
    requires Delivered(After(Start(), trace), f, InitArm)
    ensures var s := After(Start(), trace);
            && !(WokenSinceLastPoll(s, f) && WakeDue(s, f))
            && (!WokenSinceLastPoll(s, f) && !WakeDue(s, f) <==> Overtaken(trace, f, s.futs[f].id.value))
  {
    hide Runs, After, Apply, Overlooked, Overtaken;
    var s := After(Start(), trace);
    StartIsGood();
    RunKeepsInv(Start(), trace);
    assert HoldsId(s, f);
    var id := s.futs[f].id.value;
    assert FlowInv(FlowOf(s, id), id);
    OverlookedIffOvertaken(trace, f);
  }

  /** How far the first poll of a future has come: not submitted, submitted, parked by the Init
      arm, refused, or beyond. */
  function Phase(s: Sys, f: nat): nat {
    if f >= |s.futs| || s.futs[f].pc in {Init, Allocated} then 0
    else if s.futs[f].pc == Submitted then 1
    else if s.futs[f].pc == Parked(InitArm) then 2
    else if s.futs[f].pc == Failed then 3
    else 4
  }

  function Submits(s: Sys, f: nat): nat {
    if f < |s.futs| then s.futs[f].submits else 0
  }

  lemma PhaseStep(s: Sys, e: Step, f: nat)
    requires Enabled(s, e)
    ensures var p, q := Phase(s, f), Phase(Apply(s, e), f);
            && p <= q
            && (e == SubmitOk(f) <==> p == 0 && q == 1)
            && (e == RegisterInit(f) <==> p == 1 && q == 2)
            && (q == 1 ==> p <= 1) && (q == 2 ==> 1 <= p) && (q == 3 ==> p in {0, 3})
            && (e == SubmitErr(f, true) ==> p == 0 && q == 3)
            && (q == 3 ==> Submits(Apply(s, e), f) == Submits(s, f) + B(e == SubmitErr(f, true)))
            && (q == 0 ==> Submits(Apply(s, e), f) == Submits(s, f))
  {
  }

  /** Submission, registration and refusal of a future are where its phase says. */
  lemma {:induction false} PhaseRun(s: Sys, trace: seq<Step>, f: nat)
    requires Runs(s, trace)
    ensures var p, q := Phase(s, f), Phase(After(s, trace), f);
            && p <= q
            && (SubmitOk(f) in trace ==> p == 0 && q >= 1) && (p == 0 && 1 <= q <= 2 ==> SubmitOk(f) in trace)
            && (RegisterInit(f) in trace ==> p <= 1 && q >= 2) && (p <= 1 && q == 2 ==> RegisterInit(f) in trace)
            && (q == 3 ==> p in {0, 3} && Submits(After(s, trace), f) == Submits(s, f) + B(SubmitErr(f, true) in trace))
            && (SubmitErr(f, true) in trace ==> p == 0 && q >= 3)
    decreases |trace|
  {
    if trace != [] {
      PhaseStep(s, trace[0], f);
      hide Apply, Enabled, Phase, Submits;
      PhaseRun(Apply(s, trace[0]), trace[1..], f);
      assert trace == [trace[0]] + trace[1..];
    }
  }

  lemma {:induction false} RunsSplit(s: Sys, trace: seq<Step>, j: nat)
    requires Runs(s, trace) && j <= |trace|
    ensures Runs(s, trace[..j]) && Runs(After(s, trace[..j]), trace[j..])
    ensures After(After(s, trace[..j]), trace[j..]) == After(s, trace)
    decreases |trace|
  {
    hide Apply, Enabled;
    if j == 0 {
      assert trace[0..] == trace;
    } else {
      var e, rest := trace[0], trace[1..];
      RunsSplit(Apply(s, e), rest, j - 1);
      Unfold(s, e, rest[..j - 1]);
      assert trace[..j] == [e] + rest[..j - 1] && trace[j..] == rest[j - 1..];
    }
  }

  lemma UnheardStep(s: Sys, e: Step, id: u64)
    requires Enabled(s, e)
    ensures id in Apply(s, e).h.unheard <==>
              id in s.h.unheard || (e == Wake && s.waking == Some(id) && id !in s.wakers)
  {
  }

  lemma {:induction false} UnheardRun(s: Sys, trace: seq<Step>, id: u64)
    requires Runs(s, trace)
    ensures id in After(s, trace).h.unheard <==> id in s.h.unheard || exists j :: Overlooked(s, trace, j, id)
    decreases |trace|
  {
    if trace != [] {
      var e, rest := trace[0], trace[1..];
      var t := Apply(s, e);
      UnheardStep(s, e, id);
      UnheardRun(t, rest, id);
      hide Apply, Enabled;
      if j: nat :| Overlooked(t, rest, j, id) {
        assert trace[..j + 1][0] == e && trace[..j + 1][1..] == rest[..j];
        assert Overlooked(s, trace, j + 1, id);
      }
      if e == Wake && s.waking == Some(id) && id !in s.wakers {
        assert Overlooked(s, trace, 0, id);
      }
      if j: nat :| Overlooked(s, trace, j, id) && j > 0 {
        assert trace[..j][0] == e && trace[..j][1..] == rest[..j - 1];
        assert Overlooked(t, rest, j - 1, id);
      }
    }
  }

  /** An id stays with its future. */
  lemma {:induction false} OwnersStay(s: Sys, trace: seq<Step>, id: u64)
    requires Inv(s) && Runs(s, trace) && After(s, trace).h.allocs <= U64 && id in s.h.owner
    ensures Has(s, id) && Has(After(s, trace), id) && After(s, trace).h.owner[id] == s.h.owner[id]
    decreases |trace|
  {
    hide Apply, FlowOf, Enabled;
    if trace != [] {
      AllocsGrow(Apply(s, trace[0]), trace[1..]);
      FlowMoves(s, trace[0], id);
      OwnerKept(s, trace[0], id);
      StepKeepsInv(s, trace[0]);
      OwnersStay(Apply(s, trace[0]), trace[1..], id);
    }
  }

  lemma OwnerKept(s: Sys, e: Step, id: u64)
    requires Inv(s) && Enabled(s, e) && Apply(s, e).h.allocs <= U64 && id in s.h.owner
    ensures id in Apply(s, e).h.owner && Apply(s, e).h.owner[id] == s.h.owner[id]
  {
    if e.Alloc? { FreshId(s); }
    OwnerStep(s, e);
    hide Apply;
  }

  /** While the wake half for `id` is due, its future has not registered exactly if it is still
      between submission and registration. */
  lemma WakingPhase(s: Sys, id: u64)
    requires Inv(s) && s.waking == Some(id)
    ensures Has(s, id) && Phase(s, s.h.owner[id]) != 0
    ensures Phase(s, s.h.owner[id]) == 1 ==> id !in s.wakers
    ensures Phase(s, s.h.owner[id]) == 2 ==> id in s.wakers
  {
    assert HoldsId(s, s.h.owner[id]) && FlowInv(FlowOf(s, id), id);
    assert s.futs[s.h.owner[id]].pc != Init;
    hide Inv, HoldsId, NoDup, Faithful, FlowInv;
    var v := FlowOf(s, id);
    WakingFlow(v, id);
    assert v.waker == Get(s.wakers, id) && v.pc == s.futs[s.h.owner[id]].pc;
  }

  lemma WakingFlow(v: Flow, id: u64)
    requires FlowInv(v, id) && v.waking
    ensures v.pc != Allocated
    ensures v.pc == Submitted ==> v.waker.None?
    ensures v.pc == Parked(InitArm) ==> v.waker.Some?
  {
  }

  lemma OverlookedIffOvertaken(trace: seq<Step>, f: nat)
    requires Runs(Start(), trace) && After(Start(), trace).h.allocs <= U64
    requires Delivered(After(Start(), trace), f, InitArm)
    ensures var s := After(Start(), trace); s.futs[f].id.value in s.h.unheard <==> Overtaken(trace, f, s.futs[f].id.value)
  {
    hide Runs, After, Apply, Inv;
    var s := After(Start(), trace);
    var id := s.futs[f].id.value;
    UnheardRun(Start(), trace, id);
    forall j | 0 <= j < |trace| && trace[j] == Wake && Runs(Start(), trace[..j]) && After(Start(), trace[..j]).waking == Some(id)
      ensures Overlooked(Start(), trace, j, id) <==> SubmitOk(f) in trace[..j] && RegisterInit(f) in trace[j + 1..]
    {
      OverlookedAt(trace, f, j);
    }
    if j: nat :| Overlooked(Start(), trace, j, id) {
      assert trace[j] == Wake;
    }
  }

  lemma OverlookedAt(trace: seq<Step>, f: nat, j: nat)
    requires Runs(Start(), trace) && After(Start(), trace).h.allocs <= U64
    requires Delivered(After(Start(), trace), f, InitArm)
    requires j < |trace| && trace[j] == Wake && Runs(Start(), trace[..j])
    requires After(Start(), trace[..j]).waking == After(Start(), trace).futs[f].id
    ensures var id := After(Start(), trace).futs[f].id.value;
            Overlooked(Start(), trace, j, id) <==> SubmitOk(f) in trace[..j] && RegisterInit(f) in trace[j + 1..]
  {
    hide Runs, After, Inv, Apply, Phase;
    var s, m := After(Start(), trace), After(Start(), trace[..j]);
    var id := s.futs[f].id.value;
    DeliveredPhase(s, f);
    MidState(trace, j);
    WakingPhase(m, id);
    OwnersStay(m, trace[j..], id);
    OwnerIs(trace, f);
    PhaseRun(Start(), trace[..j], f);
    SuffixPhase(m, trace[j..], f);
    assert trace[j..][1..] == trace[j + 1..];
  }

  lemma DeliveredPhase(s: Sys, f: nat)
    requires Delivered(s, f, InitArm)
    ensures Phase(s, f) == 2 && Phase(Start(), f) == 0
  {
  }

  lemma OwnerIs(trace: seq<Step>, f: nat)
    requires Runs(Start(), trace) && After(Start(), trace).h.allocs <= U64
    requires f < |After(Start(), trace).futs| && After(Start(), trace).futs[f].id.Some?
    ensures var s := After(Start(), trace); s.futs[f].id.value in s.h.owner && s.h.owner[s.futs[f].id.value] == f
  {
    hide Runs, After;
    StartIsGood();
    RunKeepsInv(Start(), trace);
    assert HoldsId(After(Start(), trace), f);
  }

  /** The state in the middle of a run is a good one, and the rest of the run leads from it. */
  lemma MidState(trace: seq<Step>, j: nat)
    requires Runs(Start(), trace) && After(Start(), trace).h.allocs <= U64 && j <= |trace|
    ensures Runs(Start(), trace[..j]) && Inv(After(Start(), trace[..j]))
    ensures var m := After(Start(), trace[..j]); Runs(m, trace[j..]) && After(m, trace[j..]) == After(Start(), trace)
  {
    hide Runs, After, Inv;
    RunsSplit(Start(), trace, j);
    AllocsGrow(After(Start(), trace[..j]), trace[j..]);
    StartIsGood();
    RunKeepsInv(Start(), trace[..j]);
  }

  /** From a wake half on, a future that ends parked by the Init arm registers in the rest of the
      run exactly if it had not before. */
  lemma SuffixPhase(m: Sys, rest: seq<Step>, f: nat)
    requires Runs(m, rest) && rest != [] && rest[0] == Wake && Phase(After(m, rest), f) == 2
    ensures Phase(m, f) <= 2 && (RegisterInit(f) in rest[1..] <==> Phase(m, f) <= 1)
  {
    PhaseStep(m, Wake, f);
    hide Phase;
    PhaseRun(Apply(m, Wake), rest[1..], f);
    assert Phase(Apply(m, Wake), f) == Phase(m, f) by { WakeMovesNobody(m, f); }
  }

  lemma WakeMovesNobody(m: Sys, f: nat)
    requires Enabled(m, Wake)
    ensures Phase(Apply(m, Wake), f) == Phase(m, f)
  {
  }

  /** The overtaking run exists: the backend completes and the reaper dispatches between the
      submission and the registration of one and the same poll. */
  lemma OvertakenRegistration() returns (trace: seq<Step>)
    ensures Runs(Start(), trace)
    ensures Delivered(After(Start(), trace), 0, InitArm)
    ensures !WokenSinceLastPoll(After(Start(), trace), 0) && !WakeDue(After(Start(), trace), 0)
  {
    hide Runs, After;
    var f, c := Fut(7, Init, None, 0, 0, None, 0), Completion(42, 1);
    var s0 := Start();
    var s1 := s0.(futs := [f]);
    var s2 := s1.(nextId := 2, futs := [f.(pc := Allocated, id := Some(1), polls := 1)],
                  h := s1.h.(allocs := 1, owner := map[1 := 0]));
    var s3 := s2.(inKernel := map[1 := 7], futs := [s2.futs[0].(pc := Submitted, submits := 1)]);
    var s4 := s3.(inKernel := map[], queue := [c], h := s3.h.(produced := map[1 := Outcome(7, 42)]));
    var s5 := s4.(queue := [], batch := [c]);
    var s6 := s5.(batch := [], results := map[1 := c], waking := Some(1));
    var s7 := s6.(waking := None, h := s6.h.(unheard := {1}));
    var s8 := s7.(wakers := map[1 := Waker(0, 1)], futs := [s7.futs[0].(pc := Parked(InitArm))]);
    assert Apply(s0, Create(7)) == s1;
    assert Apply(s1, Alloc(0)) == s2;
    assert Apply(s2, SubmitOk(0)) == s3;
    assert Apply(s3, Finish(1, 42)) == s4;
    assert Apply(s4, Reap) == s5;
    assert Apply(s5, Insert) == s6;
    assert Apply(s6, Wake) == s7;
    assert Apply(s7, RegisterInit(0)) == s8;
    hide Apply;
    trace := [];
    Stay(s8);
    trace := Prepend(s7, RegisterInit(0), trace);
    trace := Prepend(s6, Wake, trace);
    trace := Prepend(s5, Insert, trace);
    trace := Prepend(s4, Reap, trace);
    trace := Prepend(s3, Finish(1, 42), trace);
    trace := Prepend(s2, SubmitOk(0), trace);
    trace := Prepend(s1, Alloc(0), trace);
    trace := Prepend(s0, Create(7), trace);
  }

  lemma Stay(s: Sys)
    ensures Runs(s, []) && After(s, []) == s
  {
  }

  lemma Prepend(s: Sys, e: Step, rest: seq<Step>) returns (trace: seq<Step>)
    requires Enabled(s, e) && Runs(Apply(s, e), rest)
    ensures trace == [e] + rest && Runs(s, trace) && After(s, trace) == After(Apply(s, e), rest)
  {
    trace := [e] + rest;
    Unfold(s, e, rest);
  }

  lemma Unfold(s: Sys, e: Step, rest: seq<Step>)
    requires Enabled(s, e) && Runs(Apply(s, e), rest)
    ensures Runs(s, [e] + rest) && After(s, [e] + rest) == After(Apply(s, e), rest)
  {
    assert ([e] + rest)[1..] == rest;
  }

  /** A delivered flow is untouched by any step of others but its own wake half. */
  lemma SettledStep(s: Sys, e: Step, id: u64)
    requires Inv(s) && Enabled(s, e) && Apply(s, e).h.allocs <= U64 && id in s.h.owner
    requires Actor(e) != Some(s.h.owner[id])
    requires var v := FlowOf(s, id); (v.result.Some? || v.got.Some?) && !(v.waking && e.Wake?)
    ensures Has(Apply(s, e), id) && FlowOf(Apply(s, e), id) == FlowOf(s, id)
  {
    hide Apply, FlowOf, Enabled;
    FlowMoves(s, e, id);
    assert FlowInv(FlowOf(s, id), id);
  }

  lemma {:induction false} QuietRun(s: Sys, trace: seq<Step>, id: u64)
    requires Inv(s) && Runs(s, trace) && After(s, trace).h.allocs <= U64 && id in s.h.owner
    requires forall e :: e in trace ==> Actor(e) != Some(s.h.owner[id])
    requires FlowOf(s, id).result.Some? && !FlowOf(s, id).waking
    ensures Has(After(s, trace), id) && FlowOf(After(s, trace), id) == FlowOf(s, id)
    decreases |trace|
  {
    if trace != [] {
      assert trace[0] in trace;
      AllocsGrow(Apply(s, trace[0]), trace[1..]);
      SettledStep(s, trace[0], id);
      StepKeepsInv(s, trace[0]);
      QuietRun(Apply(s, trace[0]), trace[1..], id);
    }
  }

  lemma ReachedIsGood(before: seq<Step>, trace: seq<Step>)
    requires Runs(Start(), before) && Runs(After(Start(), before), trace)
    requires After(After(Start(), before), trace).h.allocs <= U64
    ensures Inv(After(Start(), before))
  {
    AllocsGrow(After(Start(), before), trace);
    StartIsGood();
    RunKeepsInv(Start(), before);
  }

  /** A future stranded by the Init arm is never woken again by anybody: in whatever the rest
      of the system goes on to do, its result stays in the table and its waker stays unwoken. */
  lemma StrandedSleepsOn(before: seq<Step>, trace: seq<Step>, f: nat)
    requires Runs(Start(), before) && Runs(After(Start(), before), trace)
    requires After(After(Start(), before), trace).h.allocs <= U64
    requires var s := After(Start(), before); Delivered(s, f, InitArm) && !WokenSinceLastPoll(s, f) && !WakeDue(s, f)
    requires forall e :: e in trace ==> Actor(e) != Some(f)
    ensures var s := After(Start(), before); var t := After(s, trace);
            && f < |t.futs| && t.futs[f].id == s.futs[f].id
            && Delivered(t, f, InitArm) && !WokenSinceLastPoll(t, f)
  {
    hide Runs, After, Apply;
    var s := After(Start(), before);
    ReachedIsGood(before, trace);
    var id := s.futs[f].id.value;
    assert HoldsId(s, f);
    assert FlowInv(FlowOf(s, id), id);
    RunKeepsInv(s, trace);
    QuietRun(s, trace, id);
    var t := After(s, trace);
    assert HoldsId(t, t.h.owner[id]);
    assert FlowOf(t, id).mine == FlowOf(s, id).mine;
  }

  /** A future parked by the Init arm whose result waits in the table and that nobody has woken. */
  ghost predicate Asleep(s: Sys, f: nat) {
    Delivered(s, f, InitArm) && !WokenSinceLastPoll(s, f)
  }

  /** A wake-up can be lost for ever: there is a run after which the future's result is waiting
      and, in every continuation in which the executor does not poll it unasked, it is never
      woken. */
  lemma WakeUpLostForEver() returns (before: seq<Step>)
    ensures Runs(Start(), before)
    ensures forall rest ::
              Runs(After(Start(), before), rest) && After(After(Start(), before), rest).h.allocs <= U64
              && (forall e :: e in rest ==> Actor(e) != Some(0)) ==>
                Asleep(After(After(Start(), before), rest), 0)
  {
    hide Runs, After;
    before := OvertakenRegistration();
    forall rest | Runs(After(Start(), before), rest) && After(After(Start(), before), rest).h.allocs <= U64
                  && (forall e :: e in rest ==> Actor(e) != Some(0))
      ensures Asleep(After(After(Start(), before), rest), 0)
    {
      StrandedSleepsOn(before, rest, 0);
    }
  }

  // ----- Results nobody takes -----

  predicate Abandoned(pc: Pc) {
    pc == Failed || pc == Dropped
  }

  /** Nobody takes or discards anything on behalf of a refused or dropped future. */
  lemma AbandonedStep(s: Sys, e: Step, id: u64)
    requires Inv(s) && Enabled(s, e) && Apply(s, e).h.allocs <= U64 && id in s.h.owner && Abandoned(FlowOf(s, id).pc)
    ensures Has(Apply(s, e), id)
    ensures var v, w := FlowOf(s, id), FlowOf(Apply(s, e), id);
            && Abandoned(w.pc) && w.submits == v.submits && w.got == v.got && w.discarded == v.discarded
            && (v.result.Some? ==> w.result == v.result)
  {
    hide Apply, FlowOf, Enabled;
    FlowMoves(s, e, id);
    assert FlowInv(FlowOf(s, id), id);
  }

  lemma HasOwner(s: Sys, id: u64)
    requires Inv(s) && id in s.h.owner
    ensures Has(s, id)
  {
  }

  lemma {:induction false} AbandonedRun(s: Sys, trace: seq<Step>, id: u64)
    requires Inv(s) && Runs(s, trace) && After(s, trace).h.allocs <= U64 && id in s.h.owner && Abandoned(FlowOf(s, id).pc)
    ensures Inv(After(s, trace)) && Has(After(s, trace), id)
    ensures var v, w := FlowOf(s, id), FlowOf(After(s, trace), id);
            && Abandoned(w.pc) && w.submits == v.submits && w.got == v.got && w.discarded == v.discarded
            && (v.result.Some? ==> w.result == v.result)
    decreases |trace|
  {
    hide Apply, FlowOf, Enabled, Inv;
    HasOwner(s, id);
    if trace != [] {
      AllocsGrow(Apply(s, trace[0]), trace[1..]);
      AbandonedStep(s, trace[0], id);
      StepKeepsInv(s, trace[0]);
      AbandonedRun(Apply(s, trace[0]), trace[1..], id);
    }
  }

  /** Once the backend has produced a completion and the reaper has dispatched it, an abandoned
      future's result is in the table unless its own drop has thrown it away. */
  lemma SettledInTable(s: Sys, id: u64)
    requires Inv(s) && Has(s, id) && Abandoned(FlowOf(s, id).pc) && FlowOf(s, id).got.None?
    ensures var v := FlowOf(s, id);
            id in s.results <==> v.submits == 1 && !v.discarded && id !in s.inKernel && id !in Ids(s.queue) && id !in Ids(s.batch)
  {
    assert FlowInv(FlowOf(s, id), id);
  }

  /** A drop leaks its operation's result if and only if the result is not in the table when the
      drop looks for it: then it stays in the table once the completion has been dispatched, and
      otherwise it is gone. */
  lemma DropLeaksIff(before: seq<Step>, trace: seq<Step>, f: nat)
    requires Runs(Start(), before) && Enabled(After(Start(), before), DropEnd(f))
    requires Runs(Apply(After(Start(), before), DropEnd(f)), trace)
    requires After(Apply(After(Start(), before), DropEnd(f)), trace).h.allocs <= U64
    requires var t := After(Apply(After(Start(), before), DropEnd(f)), trace); var id := After(Start(), before).futs[f].id.value;
             id in t.h.produced && id !in Ids(t.queue) && id !in Ids(t.batch)
    ensures var s := After(Start(), before); var t := After(Apply(s, DropEnd(f)), trace); var id := s.futs[f].id.value;
            id in t.results <==> id !in s.results
  {
    hide Runs, After, Apply, Inv, FlowOf;
    var s := After(Start(), before);
    var u := Apply(s, DropEnd(f));
    AllocsGrow(u, trace);
    AllocsGrowStep(s, DropEnd(f));
    StartIsGood();
    RunKeepsInv(Start(), before);
    AfterDrop(s, f);
    var id := s.futs[f].id.value;
    AbandonedRun(u, trace, id);
    SettledInTable(After(u, trace), id);
    ProducedLeft(After(u, trace), id);
  }

  lemma AllocsGrowStep(s: Sys, e: Step)
    requires Enabled(s, e)
    ensures s.h.allocs <= Apply(s, e).h.allocs
  {
  }

  lemma ProducedLeft(s: Sys, id: u64)
    requires Inv(s) && id in s.h.produced
    ensures id !in s.inKernel
  {
    assert FlowInv(FlowOf(s, id), id);
  }

  /** The drop throws the result away if it is there. */
  lemma AfterDrop(s: Sys, f: nat)
    requires Inv(s) && Enabled(s, DropEnd(f)) && Apply(s, DropEnd(f)).h.allocs <= U64
    ensures var u, id := Apply(s, DropEnd(f)), s.futs[f].id.value;
            && Inv(u) && id in u.h.owner && Has(u, id)
            && var v := FlowOf(u, id);
               v.pc == Dropped && v.submits == 1 && v.got.None? && (v.discarded <==> id in s.results)
  {
    var id := s.futs[f].id.value;
    StepKeepsInv(s, DropEnd(f));
    assert HoldsId(s, f) && FlowInv(FlowOf(s, id), id);
    FlowMoves(s, DropEnd(f), id);
    hide Apply, Inv;
  }

  /** A refused flow's result turns up in the table if and only if the backend had published the
      flow all the same, and has completed it, and the reaper has dispatched the completion. */
  lemma RefusedResult(trace: seq<Step>, f: nat)
    requires Runs(Start(), trace) && After(Start(), trace).h.allocs <= U64
    requires f < |After(Start(), trace).futs| && After(Start(), trace).futs[f].pc == Failed
    ensures var s := After(Start(), trace); s.futs[f].id.Some?
    ensures var s := After(Start(), trace); var id := s.futs[f].id.value;
            id in s.results <==>
            SubmitErr(f, true) in trace && id !in s.inKernel && id !in Ids(s.queue) && id !in Ids(s.batch)
  {
    var s := After(Start(), trace);
    StartIsGood();
    RunKeepsInv(Start(), trace);
    assert HoldsId(s, f);
    var id := s.futs[f].id.value;
    assert FlowInv(FlowOf(s, id), id);
    PhaseRun(Start(), trace, f);
    SettledInTable(s, id);
  }

  /** Such a result, of a refused or of a dropped future, stays in the table for good: nobody
      takes it, nobody discards it. */
  lemma LateResultLeaks(before: seq<Step>, trace: seq<Step>, f: nat)
    requires Runs(Start(), before) && Runs(After(Start(), before), trace)
    requires After(After(Start(), before), trace).h.allocs <= U64
    requires var s := After(Start(), before);
             f < |s.futs| && Abandoned(s.futs[f].pc) && s.futs[f].id.Some? && s.futs[f].id.value in s.results
    ensures var s := After(Start(), before); var t := After(s, trace);
            var id := s.futs[f].id.value; id in t.results && t.results[id] == s.results[id]
  {
    hide Runs, After, Apply;
    var s := After(Start(), before);
    ReachedIsGood(before, trace);
    var id := s.futs[f].id.value;
    assert HoldsId(s, f);
    AbandonedRun(s, trace, id);
  }

  /** Both happen: a drop that comes before the completion, and a refused submission whose entry
      stayed published. */
  lemma LateResultExists() returns (trace: seq<Step>)
    ensures Runs(Start(), trace)
    ensures var s := After(Start(), trace); |s.futs| == 1 && s.futs[0].pc == Dropped && s.futs[0].id == Some(1) && 1 in s.results
  {
    hide Runs, After;
    var f, c := Fut(7, Init, None, 0, 0, None, 0), Completion(42, 1);
    var s0 := Start();
    var s1 := s0.(futs := [f]);
    var s2 := s1.(nextId := 2, futs := [f.(pc := Allocated, id := Some(1), polls := 1)],
                  h := s1.h.(allocs := 1, owner := map[1 := 0]));
    var s3 := s2.(inKernel := map[1 := 7], futs := [s2.futs[0].(pc := Submitted, submits := 1)]);
    var s4 := s3.(wakers := map[1 := Waker(0, 1)], futs := [s3.futs[0].(pc := Parked(InitArm))]);
    var s5 := s4.(wakers := map[], futs := [s4.futs[0].(pc := Dropping)]);
    var s6 := s5.(futs := [s5.futs[0].(pc := Dropped)]);
    var s7 := s6.(inKernel := map[], queue := [c], h := s6.h.(produced := map[1 := Outcome(7, 42)]));
    var s8 := s7.(queue := [], batch := [c]);
    var s9 := s8.(batch := [], results := map[1 := c], waking := Some(1));
    assert Apply(s0, Create(7)) == s1;
    assert Apply(s1, Alloc(0)) == s2;
    assert Apply(s2, SubmitOk(0)) == s3;
    assert Apply(s3, RegisterInit(0)) == s4;
    assert Apply(s4, DropBegin(0)) == s5;
    assert Apply(s5, DropEnd(0)) == s6;
    assert Apply(s6, Finish(1, 42)) == s7;
    assert Apply(s7, Reap) == s8;
    assert Apply(s8, Insert) == s9;
    hide Apply;
    trace := [];
    Stay(s9);
    trace := Prepend(s8, Insert, trace);
    trace := Prepend(s7, Reap, trace);
    trace := Prepend(s6, Finish(1, 42), trace);
    trace := Prepend(s5, DropEnd(0), trace);
    trace := Prepend(s4, DropBegin(0), trace);
    trace := Prepend(s3, RegisterInit(0), trace);
    trace := Prepend(s2, SubmitOk(0), trace);
    trace := Prepend(s1, Alloc(0), trace);
    trace := Prepend(s0, Create(7), trace);
  }

  lemma RefusedResultExists() returns (trace: seq<Step>)
    ensures Runs(Start(), trace)
    ensures var s := After(Start(), trace); |s.futs| == 1 && s.futs[0].pc == Failed && s.futs[0].id == Some(1) && 1 in s.results
  {
    hide Runs, After;
    var f, c := Fut(7, Init, None, 0, 0, None, 0), Completion(42, 1);
    var s0 := Start();
    var s1 := s0.(futs := [f]);
    var s2 := s1.(nextId := 2, futs := [f.(pc := Allocated, id := Some(1), polls := 1)],
                  h := s1.h.(allocs := 1, owner := map[1 := 0]));
    var s3 := s2.(inKernel := map[1 := 7], futs := [s2.futs[0].(pc := Failed, submits := 1)]);
    var s4 := s3.(inKernel := map[], queue := [c], h := s3.h.(produced := map[1 := Outcome(7, 42)]));
    var s5 := s4.(queue := [], batch := [c]);
    var s6 := s5.(batch := [], results := map[1 := c], waking := Some(1));
    assert Apply(s0, Create(7)) == s1;
    assert Apply(s1, Alloc(0)) == s2;
    assert Apply(s2, SubmitErr(0, true)) == s3;
    assert Apply(s3, Finish(1, 42)) == s4;
    assert Apply(s4, Reap) == s5;
    assert Apply(s5, Insert) == s6;
    hide Apply;
    trace := [];
    Stay(s6);
    trace := Prepend(s5, Insert, trace);
    trace := Prepend(s4, Reap, trace);
    trace := Prepend(s3, Finish(1, 42), trace);
    trace := Prepend(s2, SubmitErr(0, true), trace);
    trace := Prepend(s1, Alloc(0), trace);
    trace := Prepend(s0, Create(7), trace);
  }

  // ----- The next poll -----

  /** The lock sections of a poll in the Waiting arm that finds its result. */
  function WaitingPoll(f: nat): seq<Step> {
    [RegisterWait(f), Take(f), RemoveWaker(f), RemoveResult(f)]
  }

  /** How far the flow is: parked, registered, taken, waker removed, ready. */
  predicate At(v: Flow, k: nat, c: Completion) {
    match k
    case 0 => v.pc.Parked? && v.result == Some(c)
    case 1 => v.pc == Registered && v.result == Some(c)
    case 2 => v.pc == Taken && v.got == Some(c)
    case 3 => v.pc == WakerGone && v.got == Some(c)
    case _ => k == 4 && v.pc == Ready && v.got == Some(c)
  }

  ghost predicate Stage(s: Sys, f: nat, k: nat, c: Completion) {
    && f < |s.futs| && s.futs[f].id.Some? && Has(s, s.futs[f].id.value) && s.h.owner[s.futs[f].id.value] == f
    && At(FlowOf(s, s.futs[f].id.value), k, c)
  }

  /** A flow that looks the same after the step is at the same stage. */
  lemma SameStage(s: Sys, t: Sys, f: nat, k: nat, c: Completion)
    requires Stage(s, f, k, c) && Has(t, s.futs[f].id.value)
    requires var v, w := FlowOf(s, s.futs[f].id.value), FlowOf(t, s.futs[f].id.value); w.mine.fut == v.mine.fut && At(w, k, c)
    ensures Stage(t, f, k, c)
  {
  }

  lemma StageOwn(s: Sys, f: nat, k: nat, c: Completion)
    requires Inv(s) && k < 4 && Stage(s, f, k, c) && Enabled(s, WaitingPoll(f)[k])
    ensures Stage(Apply(s, WaitingPoll(f)[k]), f, k + 1, c)
  {
    assert HoldsId(s, f);
    var id := s.futs[f].id.value;
    if k < 2 {
      OwnByPoll(s, WaitingPoll(f)[k], id);
    } else {
      OwnByUnregister(s, WaitingPoll(f)[k], id);
    }
  }

  lemma StageOther(s: Sys, e: Step, f: nat, k: nat, c: Completion)
    requires Inv(s) && Enabled(s, e) && Apply(s, e).h.allocs <= U64
    requires Stage(s, f, k, c) && Actor(e) != Some(f)
    ensures Stage(Apply(s, e), f, k, c)
  {
    hide Apply, Inv, Enabled, FlowOf;
    var id := s.futs[f].id.value;
    if FlowOf(s, id).waking && e.Wake? {
      WokenFlow(s, id, k, c);
    } else {
      SettledStep(s, e, id);
    }
    SameStage(s, Apply(s, e), f, k, c);
  }

  lemma WokenFlow(s: Sys, id: u64, k: nat, c: Completion)
    requires Inv(s) && Enabled(s, Wake) && Has(s, id) && FlowOf(s, id).waking && At(FlowOf(s, id), k, c)
    ensures var t := Apply(s, Wake);
            Has(t, id) && FlowOf(t, id).mine == FlowOf(s, id).mine && At(FlowOf(t, id), k, c)
  {
    hide Apply, Inv, Enabled, FlowOf, Has;
    WakeIsOwn(s, id);
  }

  lemma WakeIsOwn(s: Sys, id: u64)
    requires Inv(s) && Enabled(s, Wake) && Has(s, id) && FlowOf(s, id).waking
    ensures Has(Apply(s, Wake), id) && FlowEnabled(FlowOf(s, id), Wake)
    ensures FlowOf(Apply(s, Wake), id) == FlowApply(FlowOf(s, id), Wake, id)
  {
    hide Apply, FlowApply;
    assert FlowInv(FlowOf(s, id), id);
    OwnByReaper(s, Wake, id);
  }

  lemma {:induction false} StageRun(s: Sys, trace: seq<Step>, f: nat, k: nat, c: Completion)
    requires Inv(s) && Runs(s, trace) && After(s, trace).h.allocs <= U64
    requires k <= 4 && Stage(s, f, k, c) && By(trace, Task(f)) == WaitingPoll(f)[k..]
    ensures Stage(After(s, trace), f, 4, c)
    decreases |trace|
  {
    hide Apply, Inv;
    if trace != [] {
      var e := trace[0];
      AllocsGrow(Apply(s, e), trace[1..]);
      StepKeepsInv(s, e);
      if Actor(e) == Some(f) {
        assert By(trace, Task(f))[0] == e && By(trace, Task(f))[1..] == By(trace[1..], Task(f));
        StageOwn(s, f, k, c);
        StageRun(Apply(s, e), trace[1..], f, k + 1, c);
      } else {
        StageOther(s, e, f, k, c);
        StageRun(Apply(s, e), trace[1..], f, k, c);
      }
    }
  }

  /** Whatever else runs in between, the first poll after delivery returns `Ready` with the
      completion that was delivered; so a stranded future needs only to be polled once more. */
  lemma NextPollIsReady(before: seq<Step>, trace: seq<Step>, f: nat, arm: Arm)
    requires Runs(Start(), before) && Runs(After(Start(), before), trace)
    requires After(After(Start(), before), trace).h.allocs <= U64
    requires Delivered(After(Start(), before), f, arm) && By(trace, Task(f)) == WaitingPoll(f)
    ensures var s := After(Start(), before); var t := After(s, trace);
            f < |t.futs| && t.futs[f].pc == Ready && t.futs[f].got == Some(s.results[s.futs[f].id.value])
  {
    hide Apply, FlowInv, Runs, After;
    var s := After(Start(), before);
    ReachedIsGood(before, trace);
    assert HoldsId(s, f);
    assert WaitingPoll(f)[0..] == WaitingPoll(f);
    StageRun(s, trace, f, 0, s.results[s.futs[f].id.value]);
  }
}
