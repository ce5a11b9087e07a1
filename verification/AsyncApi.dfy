/** The registry, a future's `poll` and `drop`, and the reaper loop as the program writes them,
    with arbitrary activity of everybody else between any two lock sections.  Each method is
    proved to perform exactly its own steps of the protocol, so the theorems about runs are
    theorems about this code. */
module AsyncApi {
  import opened Results
  import opened Words
  import P = WakerProtocol
  import T = WakerTheorems

  class WakerRegistry {
    var wakers: map<u64, P.Waker>
    var results: map<u64, P.Completion>
    var nextId: u64

    constructor ()
      ensures wakers == map[] && results == map[] && nextId == 1
    {
      wakers, results, nextId := map[], map[], 1;
    }

    /** `fetch_add(1)` on the 64-bit counter. */
    method AllocId() returns (id: u64)
      modifies this`nextId
      ensures id == old(nextId) && nextId == (id + 1) % U64
    {
      id := nextId;
      nextId := (nextId + 1) % U64;
    }

    method Register(userData: u64, waker: P.Waker)
      modifies this`wakers
      ensures wakers == old(wakers)[userData := waker]
    {
      wakers := wakers[userData := waker];
    }

    /** First lock section of `complete`. */
    method InsertResult(result: P.Completion)
      modifies this`results
      ensures results == old(results)[result.userData := result]
    {
      results := results[result.userData := result];
    }

    /** Second lock section of `complete`: the waker, if any, is removed and woken. */
    method RemoveAndWake(userData: u64) returns (woken: Option<P.Waker>)
      modifies this`wakers
      ensures woken == P.Get(old(wakers), userData) && wakers == old(wakers) - {userData}
    {
      woken := P.Get(wakers, userData);
      wakers := wakers - {userData};
    }

    method TakeResult(userData: u64) returns (r: Option<P.Completion>)
      modifies this`results
      ensures r == P.Get(old(results), userData) && results == old(results) - {userData}
    {
      r := P.Get(results, userData);
      results := results - {userData};
    }

    /** First lock section of `unregister`. */
    method RemoveWaker(userData: u64)
      modifies this`wakers
      ensures wakers == old(wakers) - {userData}
    {
      wakers := wakers - {userData};
    }

    /** Second lock section of `unregister`. */
    method RemoveResult(userData: u64)
      modifies this`results
      ensures results == old(results) - {userData}
    {
      results := results - {userData};
    }
  }

  lemma {:induction false} RunsOn(s: P.Sys, trace: seq<P.Step>, e: P.Step)
    requires P.Runs(s, trace) && P.Enabled(P.After(s, trace), e)
    ensures P.Runs(s, trace + [e]) && P.After(s, trace + [e]) == P.Apply(P.After(s, trace), e)
    decreases |trace|
  {
    hide P.Apply, P.Enabled;
    if trace == [] {
      T.Unfold(s, e, []);
    } else {
      RunsOn(P.Apply(s, trace[0]), trace[1..], e);
      assert trace + [e] == [trace[0]] + (trace[1..] + [e]);
      T.Unfold(s, trace[0], trace[1..] + [e]);
    }
  }

  /** Nobody but its own poll touches a future. */
  lemma ForeignToTask(s: P.Sys, e: P.Step, f: nat)
    requires P.Enabled(s, e) && P.Foreign(e, P.Task(f)) && f < |s.futs|
    ensures var t := P.Apply(s, e); f < |t.futs| && t.futs[f] == s.futs[f]
  {
  }

  /** Nobody but the reaper touches its batch. */
  lemma ForeignToReaper(s: P.Sys, e: P.Step)
    requires P.Enabled(s, e) && P.Foreign(e, P.TheReaper)
    ensures var t := P.Apply(s, e); t.batch == s.batch && t.waking == s.waking
  {
  }

  /** The whole process: the shared registry, the protocol state it is part of, and the run
      that led there. */
  class World {
    const registry: WakerRegistry
    var s: P.Sys
    ghost var trace: seq<P.Step>

    ghost predicate Valid()
      reads this, registry
    {
      && P.Runs(P.Start(), trace) && P.After(P.Start(), trace) == s
      && Matches(s)
    }

    predicate Matches(t: P.Sys)
      reads registry
    {
      registry.wakers == t.wakers && registry.results == t.results && registry.nextId == t.nextId
    }

    constructor ()
      ensures Valid() && fresh(this) && fresh(registry) && trace == []
    {
      registry := new WakerRegistry();
      s := P.Start();
      trace := [];
    }

    /** Records that the code just executed the lock section `e` on the registry. */
    method Record(e: P.Step)
      requires P.Runs(P.Start(), trace) && P.After(P.Start(), trace) == s
      requires P.Enabled(s, e) && Matches(P.Apply(s, e))
      modifies this
      ensures Valid() && s == P.Apply(old(s), e) && trace == old(trace) + [e]
      ensures forall who :: P.By(trace, who) == P.By(old(trace), who) + (if P.Foreign(e, who) then [] else [e])
    {
      hide P.Apply, P.Enabled, P.Runs, P.After;
      RunsOn(P.Start(), trace, e);
      forall who ensures P.By(trace + [e], who) == P.By(trace, who) + (if P.Foreign(e, who) then [] else [e]) {
        P.ByConcat(trace, [e], who);
      }
      s := P.Apply(s, e);
      trace := trace + [e];
    }

    /** Everybody but `who` takes any number of steps. */
    method Interfere(who: P.Who)
      requires Valid()
      modifies this, registry
      ensures Valid() && old(trace) <= trace && P.By(trace, who) == P.By(old(trace), who)
      ensures who.Task? && who.f < |old(s).futs| ==> who.f < |s.futs| && s.futs[who.f] == old(s).futs[who.f]
      ensures who.TheReaper? ==> s.batch == old(s).batch && s.waking == old(s).waking
    {
      hide P.Apply, P.Enabled, P.Runs, P.After;
      var n: nat := *;
      while n > 0
        invariant Valid() && old(trace) <= trace && P.By(trace, who) == P.By(old(trace), who)
        invariant who.Task? && who.f < |old(s).futs| ==> who.f < |s.futs| && s.futs[who.f] == old(s).futs[who.f]
        invariant who.TheReaper? ==> s.batch == old(s).batch && s.waking == old(s).waking
      {
        var e: P.Step := *;
        if P.Enabled(s, e) && P.Foreign(e, who) {
          var t := P.Apply(s, e);
          registry.wakers, registry.results, registry.nextId := t.wakers, t.results, t.nextId;
          if who.TheReaper? {
            ForeignToReaper(s, e);
          } else if who.f < |s.futs| {
            ForeignToTask(s, e, who.f);
          }
          Record(e);
        }
        n := n - 1;
      }
    }
  }

  // ----- A future -----

  datatype FutureState = Init | Waiting | Done

  datatype PollResult = Pending | Ready(value: IoResult)

  class ReadFuture {
    const op: nat
    const me: nat
    var state: FutureState
    var userData: u64

    /** The future's own fields say what the protocol says about it between polls. */
    ghost predicate Follows(w: World)
      reads this, w
    {
      && me < |w.s.futs| && w.s.futs[me].op == op
      && match state
         case Init => w.s.futs[me].pc == P.Init
         case Waiting => w.s.futs[me].pc.Parked? && w.s.futs[me].id == Some(userData)
         case Done => w.s.futs[me].pc in {P.Ready, P.Failed}
    }

    constructor (w: World, op: nat)
      requires w.Valid()
      modifies w
      ensures w.Valid() && w.trace == old(w.trace) + [P.Create(op)]
      ensures this.op == op && state == Init && me == |old(w.s).futs| && Follows(w)
    {
      this.op := op;
      me := |w.s.futs|;
      state := Init;
      userData := 0;
      new;
      w.Record(P.Create(op));
    }

    /** The steps this future's own task has performed in the run so far. */
    ghost function Steps(w: World): seq<P.Step>
      reads w
    {
      P.By(w.trace, P.Task(me))
    }

    /** One poll, interrupted by everybody else between its lock sections; `refusal` is the
        backend's answer to `submit`. */
    method Poll(w: World, refusal: Option<Refusal>) returns (r: PollResult)
      requires w.Valid() && Follows(w) && state != Done
      modifies this, w, w.registry
      ensures w.Valid() && Follows(w) && old(w.trace) <= w.trace
      ensures old(state) == Init && refusal.None? ==>
                r == Pending && w.s.futs[me].pc == P.Parked(P.InitArm)
                && Steps(w) == old(Steps(w)) + [P.Alloc(me), P.SubmitOk(me), P.RegisterInit(me)]
      ensures old(state) == Init && refusal.Some? ==>
                r == Ready(Refused(refusal.value.error)) && w.s.futs[me].pc == P.Failed
                && Steps(w) == old(Steps(w)) + [P.Alloc(me), P.SubmitErr(me, refusal.value.left)]
      ensures old(state) == Waiting && r == Pending ==>
                w.s.futs[me].pc == P.Parked(P.WaitingArm)
                && Steps(w) == old(Steps(w)) + [P.RegisterWait(me), P.Take(me)]
      ensures old(state) == Waiting && r != Pending ==>
                w.s.futs[me].pc == P.Ready && Steps(w) == old(Steps(w)) + T.WaitingPoll(me)
                && w.s.futs[me].id == Some(userData) && w.s.futs[me].got.Some?
                && r == Ready(IoOutcome(w.s.futs[me].got.value.value))
      // The value is the one the backend produced for this very operation.
      ensures old(state) == Waiting && r != Pending && w.s.h.allocs <= U64 ==>
                userData in w.s.h.produced && w.s.h.produced[userData].op == op
                && r == Ready(IoOutcome(w.s.h.produced[userData].value))
      // A success is answered with that value, a failure with its error number.
      ensures old(state) == Waiting && r != Pending && w.s.h.allocs <= U64 ==>
                var v := w.s.h.produced[userData].value;
                && (v >= 0 ==> r == Ready(Ok(v)))
                && (-0x8000_0000 < v < 0 ==> r == Ready(Os(-v)))
                && (v < 0 ==> r.value.Os? && -0x8000_0000 <= r.value.errno < 0x8000_0000 && (r.value.errno + v) % U32 == 0)
    {
      match state
      case Init => r := PollInit(w, refusal);
      case Waiting =>
        r := PollWaiting(w);
        if r != Pending && w.s.h.allocs <= U64 {
          T.Routing(w.trace, me);
          OutcomeIsExact(w.s.h.produced[userData].value);
        }
    }

    method PollInit(w: World, refusal: Option<Refusal>) returns (r: PollResult)
      requires w.Valid() && Follows(w) && state == Init
      modifies this, w, w.registry
      ensures w.Valid() && Follows(w) && old(w.trace) <= w.trace
      ensures refusal.None? ==>
                r == Pending && w.s.futs[me].pc == P.Parked(P.InitArm)
                && Steps(w) == old(Steps(w)) + [P.Alloc(me), P.SubmitOk(me), P.RegisterInit(me)]
      ensures refusal.Some? ==>
                r == Ready(Refused(refusal.value.error)) && w.s.futs[me].pc == P.Failed
                && Steps(w) == old(Steps(w)) + [P.Alloc(me), P.SubmitErr(me, refusal.value.left)]
    {
      hide P.Runs, P.After, P.By;
      AllocAndYield(w);
      match refusal
      case None =>
        w.Record(P.SubmitOk(me));
        state := Waiting;
        w.Interfere(P.Task(me));
        w.registry.Register(userData, P.Waker(me, w.s.futs[me].polls));
        w.Record(P.RegisterInit(me));
        r := Pending;
      case Some(why) =>
        w.Record(P.SubmitErr(me, why.left));
        state := Done;
        r := Ready(Refused(why.error));
    }

    method AllocAndYield(w: World)
      requires w.Valid() && Follows(w) && state == Init
      modifies this`userData, w, w.registry
      ensures w.Valid() && old(w.trace) <= w.trace && Steps(w) == old(Steps(w)) + [P.Alloc(me)]
      ensures me < |w.s.futs| && P.Enabled(old(w.s), P.Alloc(me)) && w.s.futs[me] == P.Apply(old(w.s), P.Alloc(me)).futs[me]
      ensures userData == old(w.registry.nextId)
    {
      hide P.Runs, P.After, P.By;
      userData := w.registry.AllocId();
      w.Record(P.Alloc(me));
      w.Interfere(P.Task(me));
    }

    method PollWaiting(w: World) returns (r: PollResult)
      requires w.Valid() && Follows(w) && state == Waiting
      modifies this, w, w.registry
      ensures w.Valid() && Follows(w) && old(w.trace) <= w.trace
      ensures r == Pending ==>
                w.s.futs[me].pc == P.Parked(P.WaitingArm)
                && Steps(w) == old(Steps(w)) + [P.RegisterWait(me), P.Take(me)]
      ensures r != Pending ==>
                w.s.futs[me].pc == P.Ready && Steps(w) == old(Steps(w)) + T.WaitingPoll(me)
                && w.s.futs[me].id == Some(userData) && w.s.futs[me].got.Some?
                && r == Ready(IoOutcome(w.s.futs[me].got.value.value))
    {
      hide P.Runs, P.After, P.By, P.Apply, P.Enabled;
      var found := RegisterAndTake(w);
      match found
      case None =>
        r := Pending;
      case Some(result) =>
        state := Done;
        w.Interfere(P.Task(me));
        Unregister(w);
        r := Ready(IoOutcome(result.value));
    }

    /** The Waiting arm registers first and looks for the result afterwards. */
    method RegisterAndTake(w: World) returns (found: Option<P.Completion>)
      requires w.Valid() && Follows(w) && state == Waiting
      modifies w, w.registry
      ensures w.Valid() && old(w.trace) <= w.trace
      ensures Steps(w) == old(Steps(w)) + [P.RegisterWait(me), P.Take(me)]
      ensures me < |w.s.futs| && w.s.futs[me].op == op && w.s.futs[me].id == Some(userData)
      ensures found.None? ==> w.s.futs[me].pc == P.Parked(P.WaitingArm)
      ensures found.Some? ==> w.s.futs[me].pc == P.Taken && w.s.futs[me].got == found
    {
      hide P.Runs, P.After, P.By;
      w.registry.Register(userData, P.Waker(me, w.s.futs[me].polls + 1));
      w.Record(P.RegisterWait(me));
      w.Interfere(P.Task(me));
      found := w.registry.TakeResult(userData);
      w.Record(P.Take(me));
    }

    /** `unregister`, the end of a successful poll. */
    method Unregister(w: World)
      requires w.Valid() && me < |w.s.futs| && w.s.futs[me].pc == P.Taken && w.s.futs[me].id == Some(userData)
      modifies w, w.registry
      ensures w.Valid() && old(w.trace) <= w.trace
      ensures me < |w.s.futs| && w.s.futs[me] == old(w.s).futs[me].(pc := P.Ready)
      ensures Steps(w) == old(Steps(w)) + [P.RemoveWaker(me), P.RemoveResult(me)]
    {
      hide P.Runs, P.After, P.By;
      w.registry.RemoveWaker(userData);
      w.Record(P.RemoveWaker(me));
      w.Interfere(P.Task(me));
      w.registry.RemoveResult(userData);
      w.Record(P.RemoveResult(me));
    }

    /** Dropping the future: a waiting one removes its waker and then its result. */
    method Drop(w: World)
      requires w.Valid() && Follows(w)
      modifies w, w.registry
      ensures w.Valid() && old(w.trace) <= w.trace
      ensures me < |w.s.futs| && w.s.futs[me].pc == P.Dropped
      ensures Steps(w) == old(Steps(w)) + if state == Waiting then [P.DropBegin(me), P.DropEnd(me)] else [P.DropBegin(me)]
    {
      hide P.Runs, P.After, P.By;
      if state == Waiting {
        w.registry.RemoveWaker(userData);
      }
      w.Record(P.DropBegin(me));
      if state == Waiting {
        w.Interfere(P.Task(me));
        w.registry.RemoveResult(userData);
        w.Record(P.DropEnd(me));
      }
    }
  }

  // ----- The reaper thread -----

  /** The reaper's own steps while it dispatches `n` completions. */
  function Dispatch(n: nat): seq<P.Step> {
    if n == 0 then [] else Dispatch(n - 1) + [P.Insert, P.Wake]
  }

  /** One round of the reaper's loop: reap everything the backend has completed, then deliver
      and wake one completion after the other, in completion order. */
  method ReaperRound(w: World)
    requires w.Valid() && w.s.batch == [] && w.s.waking.None?
    modifies w, w.registry
    ensures w.Valid() && w.s.batch == [] && w.s.waking.None? && old(w.trace) <= w.trace
    ensures P.By(w.trace, P.TheReaper) == P.By(old(w.trace), P.TheReaper)
                                          + if old(w.s).queue == [] then [] else [P.Reap] + Dispatch(|old(w.s).queue|)
  {
    hide P.Runs, P.After, P.By;
    var results := w.s.queue;
    if |results| > 0 {
      w.Record(P.Reap);
      w.Interfere(P.TheReaper);
      ghost var before := P.By(old(w.trace), P.TheReaper) + [P.Reap];
      for i := 0 to |results|
        invariant w.Valid() && w.s.batch == results[i..] && w.s.waking.None? && old(w.trace) <= w.trace
        invariant P.By(w.trace, P.TheReaper) == before + Dispatch(i)
      {
        Complete(w, results[i]);
        w.Interfere(P.TheReaper);
        assert before + Dispatch(i) + [P.Insert, P.Wake] == before + Dispatch(i + 1);
      }
      assert before + Dispatch(|results|) == P.By(old(w.trace), P.TheReaper) + ([P.Reap] + Dispatch(|results|));
    }
  }

  /** `complete`, whose two lock sections others can come between. */
  method Complete(w: World, result: P.Completion)
    requires w.Valid() && w.s.batch != [] && w.s.batch[0] == result && w.s.waking.None?
    modifies w, w.registry
    ensures w.Valid() && w.s.batch == old(w.s).batch[1..] && w.s.waking.None? && old(w.trace) <= w.trace
    ensures P.By(w.trace, P.TheReaper) == P.By(old(w.trace), P.TheReaper) + [P.Insert, P.Wake]
  {
    hide P.Runs, P.After, P.By;
    w.registry.InsertResult(result);
    w.Record(P.Insert);
    w.Interfere(P.TheReaper);
    var woken := w.registry.RemoveAndWake(result.userData);
    w.Record(P.Wake);
  }
}
