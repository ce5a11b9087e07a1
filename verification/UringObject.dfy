/** The io_uring backend as the program writes it: entries written in place through masked
    32-bit counters and an index array, the completion ring drained slot by slot.  Every method
    performs exactly its own steps of the machine in `Uring`, with the kernel posting completions
    in between. */
module UringObject {
  import opened Flows
  import opened Results
  import opened RingIndex
  import opened UringLowering
  import opened Words
  import L = Lease
  import U = Uring

  datatype RawCqe = RawCqe(userData: u64, res: int, flags: u32)

  const F_BUFFER: u32 := 1
  const F_MORE: u32 := 2

  const ENOMEM: nat := 12

  datatype Outcome = Done(count: nat) | SubmissionFull | OsError(errno: nat)

  /** The two bits of the flag word that say something here.  The others are the kernel's: the id
      of the chosen buffer in the upper half, and whatever else it sets. */
  predicate HasBuffer(flags: u32) {
    flags % 2 == 1
  }

  predicate HasMore(flags: u32) {
    (flags / 2) % 2 == 1
  }

  /** A completion as it stands in the ring, with any flag word whose two bits are right. */
  predicate Renders(raw: RawCqe, c: U.Cqe) {
    raw.userData == c.userData && raw.res == c.res && (HasBuffer(raw.flags) <==> c.buffer) && (HasMore(raw.flags) <==> c.more)
  }

  ghost predicate RendersAll(raws: seq<RawCqe>, q: seq<U.Cqe>) {
    |raws| == |q| && forall i :: 0 <= i < |q| ==> Renders(raws[i], q[i])
  }

  lemma Renderable(c: U.Cqe) returns (raw: RawCqe)
    ensures Renders(raw, c)
  {
    raw := RawCqe(c.userData, c.res, (if c.buffer then F_BUFFER else 0) + (if c.more then F_MORE else 0));
  }

  lemma RendersOneMore(raws: seq<RawCqe>, q: seq<U.Cqe>, raw: RawCqe, c: U.Cqe)
    requires RendersAll(raws, q) && Renders(raw, c)
    ensures RendersAll(raws + [raw], q + [c])
  {
  }

  lemma RendersTheRest(raws: seq<RawCqe>, q: seq<U.Cqe>)
    requires RendersAll(raws, q) && q != []
    ensures |raws| == |q| && Renders(raws[0], q[0]) && RendersAll(raws[1..], q[1..])
  {
  }

  function AsResults(q: seq<U.Cqe>): seq<TorusResult> {
    seq(|q|, i requires 0 <= i < |q| => TorusResult(q[i].res, q[i].userData))
  }

  /** The two tests read their bits out of any 32-bit flag word. */
  lemma FlagBits(flags: u32)
    ensures BitAnd(flags, F_BUFFER) != 0 <==> HasBuffer(flags)
    ensures BitAnd(flags, F_MORE) != 0 <==> HasMore(flags)
  {
    assert BitAnd(flags / 2, F_MORE / 2) == (flags / 2) % 2;
  }

  /** The steps of a run that the user side took. */
  ghost function Calls(trace: seq<U.Step>): seq<U.Step> {
    if trace == [] then []
    else Calls(trace[..|trace| - 1]) + (if trace[|trace| - 1].Post? then [] else [trace[|trace| - 1]])
  }

  ghost function Publishes(q: seq<Sqe>): seq<U.Step> {
    seq(|q|, i requires 0 <= i < |q| => U.Publish(q[i]))
  }

  /** What a completion posted by the kernel leaves alone. */
  predicate SameQueue(s: U.Sys, t: U.Sys) {
    && t.slots == s.slots && t.sqHead == s.sqHead && t.sqTail == s.sqTail && t.user == s.user
    && t.h == s.h && t.inFlight == s.inFlight && t.cqEntries == s.cqEntries
    && (t.pool.Some? <==> s.pool.Some?) && (t.pool.Some? ==> t.pool.value.tail == s.pool.value.tail)
  }

  lemma PostKeepsQueue(s: U.Sys, e: U.Step)
    requires U.Enabled(s, e) && e.Post?
    ensures var t := U.Apply(s, e);
            SameQueue(s, t) && t.cq == s.cq + [U.Cqe(e.n, e.res, s.h.accepted[e.n].userData, e.more, e.buffer)]
  {
  }

  lemma SameQueueAcrossPost(a: U.Sys, s: U.Sys, t: U.Sys)
    requires SameQueue(a, s) && SameQueue(s, t)
    ensures SameQueue(a, t)
  {
  }

  lemma SameQueueReflexive(s: U.Sys)
    ensures SameQueue(s, s)
  {
  }

  lemma NothingPublished(s: U.Sys)
    requires s.user.Submitting? && s.slots != []
    ensures U.PublishAll(s, []) == s && SameQueue(s, s)
  {
  }

  lemma OneIsOne()
    ensures Wrap32(0 + 1) == 1
  {
  }

  lemma Counted(i: nat)
    ensures Wrap32(i % U32 + 1) == (i + 1) % U32
  {
  }

  lemma EnterFrame(s: U.Sys, taken: Option<nat>)
    requires U.Enabled(s, U.Enter(taken))
    ensures var t := U.Apply(s, U.Enter(taken));
            && t.sqTail == s.sqTail && t.slots == s.slots && t.cq == s.cq && t.pool == s.pool
            && t.cqEntries == s.cqEntries && t.user == U.Idle
            && (taken.None? ==> t.sqHead == s.sqHead && t.inFlight == s.inFlight && t.h == s.h)
            && (taken.Some? ==> t.sqHead == s.sqHead + taken.value && t.inFlight == Wrap32(s.inFlight + s.user.k))
  {
  }

  lemma RingIsOrdered(s: U.Sys)
    requires U.Inv(s)
    ensures s.slots != [] && s.sqHead <= s.sqTail
  {
  }

  lemma PublishFrame(s: U.Sys, e: Sqe)
    requires U.Enabled(s, U.Publish(e))
    ensures var t := U.Apply(s, U.Publish(e));
            && t.pool == s.pool && t.h == s.h.(published := s.h.published + [e]) && t.inFlight == s.inFlight
            && t.sqHead == s.sqHead && t.sqTail == s.sqTail + 1
            && t.user == U.Submitting(Wrap32(s.user.k + 1))
  {
  }

  lemma PopFrame(s: U.Sys)
    requires U.Enabled(s, U.ReapOne)
    ensures var t := U.Apply(s, U.ReapOne); var c := s.cq[0];
            && SameQueue(s, t.(user := s.user, h := s.h)) && t.pool == s.pool && t.cq == s.cq[1..]
            && t.h.reaped == s.h.reaped + [c] && t.h.accepted == s.h.accepted
            && t.user == U.Draining(if c.more then s.user.dec else Wrap32(s.user.dec + 1),
                                    if c.buffer && c.res >= 0 then (s.user.bufs + 1) % U16 else s.user.bufs)
  {
  }

  lemma EndFrame(s: U.Sys)
    requires U.Enabled(s, U.ReapEnd)
    ensures var t := U.Apply(s, U.ReapEnd);
            && SameQueue(s.(user := t.user, inFlight := t.inFlight, pool := t.pool), t) && t.cq == s.cq && t.user.Idle?
            && t.inFlight == Sub32(s.inFlight, s.user.dec)
            && t.pool == (if s.pool.Some? then Some(s.pool.value.(tail := (s.pool.value.tail + s.user.bufs) % U16)) else None)
  {
  }

  /** The steps of `count` iterations of the reap loop. */
  ghost function Ones(count: nat): seq<U.Step> {
    seq(count, _ => U.ReapOne)
  }

  lemma OneMore(count: nat)
    ensures Ones(count + 1) == Ones(count) + [U.ReapOne]
  {
  }

  lemma Assoc<T>(a: seq<T>, b: seq<T>, c: seq<T>)
    ensures a + b + c == a + (b + c)
  {
  }

  lemma NoResults()
    ensures AsResults([]) == [] && Ones(0) == [] && U.Terminal([]) == 0 && U.Carrying([]) == 0 && Tallied([], 0, 0)
  {
  }

  /** The loop's two counts are those of the completions reaped so far. */
  predicate Tallied(q: seq<U.Cqe>, dec: u32, bufs: u16) {
    dec == U.Terminal(q) % U32 && bufs == U.Carrying(q) % U16
  }

  lemma TallyOne(q: seq<U.Cqe>, c: U.Cqe, dec: u32, bufs: u16)
    requires Tallied(q, dec, bufs)
    ensures Tallied(q + [c], if c.more then dec else Wrap32(dec + 1), if c.buffer && c.res >= 0 then (bufs + 1) % U16 else bufs)
  {
    U.PostCounts(q, c);
  }

  lemma TakenOff(a: u32, q: seq<U.Cqe>, dec: u32, bufs: u16, tail: u16)
    requires Tallied(q, dec, bufs)
    ensures Sub32(a, dec) == (a - U.Terminal(q)) % U32
    ensures (tail + bufs) % U16 == (tail + U.Carrying(q)) % U16
  {
  }

  lemma OneMoreResult(q: seq<U.Cqe>, c: U.Cqe)
    ensures AsResults(q + [c]) == AsResults(q) + [TorusResult(c.res, c.userData)]
  {
  }

  lemma ResultsInOrder(q: seq<U.Cqe>)
    ensures |AsResults(q)| == |q| && forall i :: 0 <= i < |q| ==> AsResults(q)[i] == TorusResult(q[i].res, q[i].userData)
  {
  }

  lemma BeginFrame(s: U.Sys)
    requires s.user.Idle?
    ensures U.Enabled(s, U.SubmitBegin) && U.Apply(s, U.SubmitBegin) == s.(user := U.Submitting(0))
    ensures U.Enabled(s, U.ReapBegin) && U.Apply(s, U.ReapBegin) == s.(user := U.Draining(0, 0))
  {
  }

  lemma NothingFrame(s: U.Sys)
    requires U.Enabled(s, U.SubmitNothing)
    ensures U.Apply(s, U.SubmitNothing) == s.(user := U.Idle)
  {
  }

  /** Equal submission rings feed the kernel equal entries. */
  lemma TakesTheSame(a: U.Sys, t: U.Sys, n: nat)
    requires SameQueue(a, t) && U.Enabled(a, U.Enter(Some(n))) && U.Enabled(t, U.Enter(Some(n)))
    ensures U.Apply(a, U.Enter(Some(n))).h.accepted == U.Apply(t, U.Enter(Some(n))).h.accepted
  {
  }

  lemma SameQueueAcrossPublish(a: U.Sys, s: U.Sys, e: Sqe)
    requires SameQueue(a, s) && U.Enabled(a, U.Publish(e)) && U.Enabled(s, U.Publish(e))
    ensures SameQueue(U.Apply(a, U.Publish(e)), U.Apply(s, U.Publish(e)))
  {
  }

  lemma PublishOneMore(u: U.Sys, q: seq<Sqe>, e: Sqe)
    requires u.user.Submitting? && u.slots != []
    ensures U.PublishAll(u, q + [e]) == U.Apply(U.PublishAll(u, q), U.Publish(e))
  {
    assert (q + [e])[..|q|] == q;
  }

  class UringBackend {
    const entries: Size
    const cqEntries: Size
    const sqes: array<Sqe>
    const order: array<u32>
    const cqes: array<RawCqe>
    var sqHead: u32
    var sqTail: u32
    var cqHead: u32
    var cqTail: u32
    var inFlight: u32
    var registered: Registered
    var pbufTail: Option<u16>
    var s: U.Sys
    ghost const origin: U.Sys
    ghost var trace: seq<U.Step>
    ghost var cqPos: nat
    ghost var raws: seq<RawCqe>

    ghost predicate Shape()
      reads this
    {
      && sqes.Length == entries && order.Length == entries && cqes.Length == cqEntries
      && origin.slots != [] && origin.cqEntries == cqEntries && origin == U.Start(origin.slots, origin.sqTail, cqEntries)
    }

    ghost predicate Valid()
      reads this, sqes, order, cqes
    {
      && Shape() && U.Runs(origin, trace) && U.After(origin, trace) == s
      && SubmissionMatches(s) && CompletionMatches(s.cq) && s.cqEntries == cqEntries
      && ScalarsMatch(s)
    }

    /** The entries are in their slots, the counters are the positions cut to 32 bits, and every
        slot published since the start is reached through its own index. */
    ghost predicate SubmissionMatches(t: U.Sys)
      reads this, sqes, order
      requires order.Length == entries
    {
      && sqes[..] == t.slots && |t.slots| == entries && sqHead == Wrap32(t.sqHead) && sqTail == Wrap32(t.sqTail)
      && origin.sqTail <= t.sqHead
      && forall p: nat :: origin.sqTail <= p < t.sqTail ==> order[At(p, entries)] == At(p, entries)
    }

    ghost predicate CompletionMatches(cq: seq<U.Cqe>)
      reads this, cqes
    {
      && Holds(cqes[..], cqPos, raws) && RendersAll(raws, cq) && |raws| == |cq| <= cqEntries
      && cqHead == Wrap32(cqPos) && cqTail == Wrap32(cqPos + |cq|)
    }

    ghost predicate ScalarsMatch(t: U.Sys)
      reads this
    {
      && inFlight == t.inFlight
      && pbufTail == (if t.pool.Some? then Some(t.pool.value.tail) else None)
    }

    /** Rings whose counters stand anywhere and whose slots hold anything. */
    constructor (entries: Size, cqEntries: Size, sqStart: nat, cqStart: nat, junk: Sqe)
      ensures Valid() && s.user.Idle? && fresh(sqes) && fresh(order) && fresh(cqes)
      ensures this.entries == entries && this.cqEntries == cqEntries && trace == [] && registered == map[]
      ensures s.sqHead == s.sqTail == sqStart
    {
      this.entries, this.cqEntries := entries, cqEntries;
      sqes := new Sqe[entries](_ => junk);
      order := new u32[entries](_ => 0);
      cqes := new RawCqe[cqEntries](_ => RawCqe(0, 0, 0));
      sqHead, sqTail, cqHead, cqTail := Wrap32(sqStart), Wrap32(sqStart), Wrap32(cqStart), Wrap32(cqStart);
      inFlight, registered, pbufTail := 0, map[], None;
      var slots := seq(entries, _ => junk);
      s := U.Start(slots, sqStart, cqEntries);
      origin := U.Start(slots, sqStart, cqEntries);
      trace := [];
      cqPos, raws := cqStart, [];
      new;
      assert sqes[..] == slots;
    }

    /** Records that the code, or the kernel, just performed the step `e`. */
    method Record(e: U.Step)
      requires Shape() && U.Runs(origin, trace) && U.After(origin, trace) == s && U.Enabled(s, e)
      requires var t := U.Apply(s, e); SubmissionMatches(t) && CompletionMatches(t.cq) && ScalarsMatch(t) && t.cqEntries == cqEntries
      modifies this`s, this`trace
      ensures Valid() && s == U.Apply(old(s), e) && trace == old(trace) + [e]
      ensures Calls(trace) == Calls(old(trace)) + (if e.Post? then [] else [e])
    {
      hide U.Apply, U.Enabled, U.Runs, U.After, Holds, RendersAll, Wrap32;
      U.RunsOn(origin, trace, e);
      s := U.Apply(s, e);
      assert (trace + [e])[..|trace|] == trace;
      trace := trace + [e];
    }

    lemma Sound()
      requires Valid()
      ensures U.Inv(s)
    {
      U.StartIsGood(origin.slots, origin.sqTail, origin.cqEntries);
      U.RunKeepsInv(origin, trace);
    }

    /** The kernel posts one completion behind the last one. */
    method PostOne(e: U.Step)
      requires Valid() && U.Enabled(s, e) && e.Post?
      modifies this`s, this`trace, this`cqTail, this`raws, cqes
      ensures Valid() && s == U.Apply(old(s), e) && Calls(trace) == Calls(old(trace))
    {
      hide U.Apply, U.Runs, U.After, Holds, Wrap32, Slot, At, IsPow2, BitAnd, RendersAll;
      PostKeepsQueue(s, e);
      var c := U.Cqe(e.n, e.res, s.h.accepted[e.n].userData, e.more, e.buffer);
      ghost var example := Renderable(c);
      var raw: RawCqe :| Renders(raw, c);
      RendersOneMore(raws, s.cq, raw, c);
      hide Renders;
      SlotOfPosition(cqPos + |s.cq|, cqEntries);
      PostKeeps(cqes[..], cqPos, raws, raw);
      Advance(cqPos + |s.cq|, 1);
      cqes[Slot(cqTail, cqEntries)] := raw;
      raws := raws + [raw];
      cqTail := Wrap32(cqTail + 1);
      Record(e);
    }

    /** The kernel posts at most `budget` completions; what is left of the budget is returned. */
    method Interfere(budget: nat) returns (left: nat)
      requires Valid()
      modifies this`s, this`trace, this`cqTail, this`raws, cqes
      ensures Valid() && SameQueue(old(s), s) && Calls(trace) == Calls(old(trace))
      ensures old(s).cq <= s.cq && left + |s.cq| <= budget + |old(s).cq|
    {
      hide U.Apply, U.Enabled, U.Runs, U.After, Holds, RendersAll, Wrap32, SameQueue;
      left := budget;
      SameQueueReflexive(s);
      while left > 0
        invariant Valid() && SameQueue(old(s), s) && Calls(trace) == Calls(old(trace))
        invariant old(s).cq <= s.cq && left + |s.cq| <= budget + |old(s).cq|
      {
        var e: U.Step := *;
        if U.Enabled(s, e) && e.Post? {
          PostKeepsQueue(s, e);
          SameQueueAcrossPost(old(s), s, U.Apply(s, e));
          PostOne(e);
        }
        left := left - 1;
      }
    }

    // ----- Submission -----

    /** Zeroes the slot, lets the request's arm assign its fields, points the index array at the
        slot and advances the tail: the entry published is the request's own, whatever the slot
        held before. */
    method PublishEntry(r: Request)
      requires Valid() && s.user.Submitting? && Submittable(r)
      modifies this`sqTail, this`s, this`trace, sqes, order
      ensures Valid() && U.Enabled(old(s), U.Publish(Entry(registered, r)))
      ensures s == U.Apply(old(s), U.Publish(Entry(registered, r)))
      ensures Calls(trace) == Calls(old(trace)) + [U.Publish(Entry(registered, r))]
    {
      hide U.Runs, U.After, Holds, RendersAll, Wrap32, Slot, At, IsPow2, BitAnd, Fill, Entry;
      SlotOfPosition(s.sqTail, entries);
      Advance(s.sqTail, 1);
      var index := Slot(sqTail, entries);
      sqes[index] := ZERO;
      FillIsExact(registered, r, sqes[index]);
      sqes[index] := Fill(registered, r, sqes[index]);
      order[index] := index;
      sqTail := Wrap32(sqTail + 1);
      Record(U.Publish(Entry(registered, r)));
    }

    /** What the kernel finds by following the index array is what the machine's ring holds. */
    lemma KernelSees(i: nat)
      requires Valid() && s.sqHead + i < s.sqTail
      ensures var slot := Slot(Wrap32(s.sqHead + i), entries);
              && slot < entries && order[slot] < entries
              && sqes[order[slot]] == U.ReadSlots(s.slots, s.sqHead, i + 1)[i]
    {
      hide U.Runs, U.After, Holds, RendersAll, Wrap32, Slot, At, IsPow2, BitAnd;
      SlotOfPosition(s.sqHead + i, entries);
    }

    /** `io_uring_enter`: the kernel takes some of the entries, or reports an error and takes
        none; the counter goes up by the whole batch unless there was an error.  The system call
        returns -1 for every error, and the code takes that for the negated error number. */
    method EnterKernel() returns (r: Outcome, ghost last: U.Step)
      requires Valid() && s.user.Submitting? && s.user.k > 0
      modifies this
      ensures Valid() && last.Enter? && U.Enabled(old(s), last) && s == U.Apply(old(s), last)
      ensures Calls(trace) == Calls(old(trace)) + [last]
      ensures r.OsError? <==> last.taken.None?
      ensures if r.OsError? then r.errno == 1 else r == Done(old(s).user.k)
      ensures registered == old(registered)
    {
      hide U.Runs, U.After, U.Apply, U.Inv, Holds, RendersAll, IsPow2, BitAnd, At, Wrap32;
      Sound();
      RingIsOrdered(s);
      var submitted := s.user.k;
      var answered: bool, taken: nat := *, *;
      if answered && U.Enabled(s, U.Enter(Some(taken))) {
        last := U.Enter(Some(taken));
        Advance(s.sqHead, taken);
        sqHead := Wrap32(sqHead + taken);
        inFlight := Wrap32(inFlight + submitted);
        EnterFrame(s, Some(taken));
        Record(U.Enter(Some(taken)));
        r := Done(submitted);
      } else {
        var ret := -1;
        last := U.Enter(None);
        EnterFrame(s, None);
        Record(U.Enter(None));
        r := OsError(-ret);
      }
    }

    /** The loop of `submit`: lowers and publishes flow after flow.  The test for a full ring
        never stops it. */
    method PublishFlows(flows: seq<Flow>) returns (submitted: u32)
      requires Valid() && s.user == U.Submitting(0)
      requires forall f :: f in flows ==> Modelled(f.op)
      modifies this`sqTail, this`s, this`trace, this`cqTail, this`raws, sqes, order, cqes
      ensures Valid() && submitted == |flows| % U32
      ensures SameQueue(U.PublishAll(old(s), LowerAll(registered, flows)), s)
      ensures Calls(trace) == Calls(old(trace)) + Publishes(LowerAll(registered, flows))
    {
      hide U.Runs, U.After, U.Apply, Holds, RendersAll, IsPow2, BitAnd, At, Slot, Masked, U.PublishAll, Entry, SameQueue, Wrap32;
      ghost var q := LowerAll(registered, flows);
      submitted := 0;
      NothingPublished(s);
      for i := 0 to |flows|
        invariant Valid() && s.user.Submitting?
        invariant submitted == i % U32
        invariant SameQueue(U.PublishAll(old(s), q[..i]), s)
        invariant Calls(trace) == Calls(old(trace)) + Publishes(q[..i])
      {
        ghost var before := s;
        var budget: nat := *;
        budget := Interfere(budget);
        SameQueueAcrossPost(U.PublishAll(old(s), q[..i]), before, s);
        MaskedBelow(sqTail, sqHead, entries);
        var full := Masked(sqTail, sqHead, entries) >= entries;
        assert !full;
        if full {
          break;
        }
        assert flows[i] in flows;
        ghost var e := Entry(registered, Plain(flows[i]));
        ghost var during := s;
        PublishEntry(Plain(flows[i]));
        assert q[..i + 1] == q[..i] + [e];
        assert Publishes(q[..i + 1]) == Publishes(q[..i]) + [U.Publish(e)];
        PublishOneMore(old(s), q[..i], e);
        SameQueueAcrossPublish(U.PublishAll(old(s), q[..i]), during, e);
        Counted(i);
        submitted := Wrap32(submitted + 1);
      }
      assert q[..|flows|] == q;
    }

    /** Publishes all flows, then enters the kernel once. */
    method Submit(flows: seq<Flow>) returns (r: Outcome, ghost last: U.Step)
      requires Valid() && s.user.Idle?
      requires forall f :: f in flows ==> Modelled(f.op)
      modifies this, sqes, order, cqes
      ensures Valid() && s.user.Idle? && registered == old(registered)
      ensures Calls(trace) == Calls(old(trace)) + [U.SubmitBegin] + Publishes(LowerAll(registered, flows)) + [last]
      ensures r.SubmissionFull? <==> |flows| % U32 == 0
      ensures r.OsError? ==> r.errno == 1
      ensures r.Done? ==> r.count == |flows| % U32 && inFlight == Wrap32(old(inFlight) + r.count)
      ensures !r.Done? ==> inFlight == old(inFlight) && s.h.accepted == old(s).h.accepted
      ensures s.sqTail == old(s).sqTail + |flows|
      ensures r.Done? && last == U.Enter(Some(|flows|)) && old(s).sqHead == old(s).sqTail && |flows| <= entries ==>
                s.h.accepted == old(s).h.accepted + LowerAll(registered, flows) && s.sqHead == s.sqTail
    {
      hide U.Runs, U.After, U.Apply, Holds, RendersAll, IsPow2, BitAnd, At, U.PublishAll, Lower, Wrap32, Publishes;
      BeginFrame(s);
      Record(U.SubmitBegin);
      ghost var u := s;
      var submitted := PublishFlows(flows);
      ghost var t := s;
      if submitted == 0 {
        NothingFrame(s);
        last := U.SubmitNothing;
        Record(U.SubmitNothing);
        return SubmissionFull, last;
      }
      r, last := EnterKernel();
      EnterFrame(t, last.taken);
      if last == U.Enter(Some(|flows|)) && old(s).sqHead == old(s).sqTail && |flows| <= entries {
        U.SubmitRefinesFifo(u, LowerAll(registered, flows));
        TakesTheSame(U.PublishAll(u, LowerAll(registered, flows)), t, |flows|);
      }
    }

    /** The calls that submit a single entry of their own. */
    method SubmitEntry(request: Request) returns (r: Outcome, ghost last: U.Step)
      requires Valid() && s.user.Idle? && Submittable(request)
      modifies this, sqes, order, cqes
      ensures Valid() && s.user.Idle? && registered == old(registered) && s.pool == old(s).pool
      ensures Calls(trace) == Calls(old(trace)) + [U.SubmitBegin, U.Publish(Entry(registered, request)), last] && last.Enter?
      ensures r == Done(1) || r == OsError(1)
      ensures r.Done? ==> inFlight == Wrap32(old(inFlight) + 1)
      ensures r.OsError? ==> inFlight == old(inFlight) && s.h.accepted == old(s).h.accepted
      ensures last == U.Enter(Some(1)) && old(s).sqHead == old(s).sqTail ==>
                s.h.accepted == old(s).h.accepted + [Entry(registered, request)] && s.sqHead == s.sqTail
    {
      hide U.Runs, U.After, U.Apply, U.Inv, Holds, RendersAll, IsPow2, BitAnd, At, Slot, U.PublishAll, Wrap32, Fill, Entry;
      Sound();
      RingIsOrdered(s);
      ghost var e := Entry(registered, request);
      BeginFrame(s);
      Record(U.SubmitBegin);
      ghost var u := s;
      PublishOneMore(u, [], e);
      NothingPublished(u);
      assert [] + [e] == [e];
      PublishEntry(request);
      PublishFrame(u, e);
      ghost var t := s;
      OneIsOne();
      r, last := EnterKernel();
      EnterFrame(t, last.taken);
      if last == U.Enter(Some(1)) && old(s).sqHead == old(s).sqTail {
        U.SubmitRefinesFifo(u, [e]);
      }
    }

    method SubmitMultiAccept(fd: int, addr: u64, addrlenPtr: u64, userData: u64) returns (r: Outcome, ghost last: U.Step)
      requires Valid() && s.user.Idle?
      modifies this, sqes, order, cqes
      ensures Valid() && s.user.Idle?
      ensures Calls(trace) == Calls(old(trace)) + [U.SubmitBegin, U.Publish(MultiAccept(fd, addr, addrlenPtr, userData)), last]
      ensures inFlight == if r.Done? then Wrap32(old(inFlight) + 1) else old(inFlight)
    {
      r, last := SubmitEntry(AcceptMany(fd, addr, addrlenPtr, userData));
    }

    method CancelMulti(target: u64, userData: u64) returns (r: Outcome, ghost last: U.Step)
      requires Valid() && s.user.Idle?
      modifies this, sqes, order, cqes
      ensures Valid() && s.user.Idle?
      ensures Calls(trace) == Calls(old(trace)) + [U.SubmitBegin, U.Publish(Cancel(target, userData)), last]
      ensures inFlight == if r.Done? then Wrap32(old(inFlight) + 1) else old(inFlight)
    {
      r, last := SubmitEntry(CancelOf(target, userData));
    }

    /** Registers the provided-buffer ring on first use only; the kernel refuses rings of more
        than 2^15 entries and may refuse others. */
    method EnsurePool(nbufs: nat) returns (r: Outcome)
      requires Valid() && s.user.Idle?
      modifies this
      ensures Valid() && s.user.Idle? && inFlight == old(inFlight) && registered == old(registered)
      ensures old(s).pool.Some? ==> r.Done? && s == old(s) && trace == old(trace)
      ensures r.Done? || (r.OsError? && r.errno in {1, 12} && s == old(s) && trace == old(trace))
      ensures r.Done? ==> s.pool.Some?
      ensures r.Done? && old(s).pool.None? ==>
                && U.Enabled(old(s), U.RegisterPool(nbufs)) && s == U.Apply(old(s), U.RegisterPool(nbufs))
                && Calls(trace) == Calls(old(trace)) + [U.RegisterPool(nbufs)]
      // The ring has the least power of two of slots that suffices, all of them credited.
      ensures r.Done? && old(s).pool.None? ==>
                var size := s.pool.value.entries;
                && IsPow2(size) && 2 <= size <= 0x8000 && nbufs <= size && pbufTail == Some(size)
                && forall q: nat :: IsPow2(q) && q >= 2 && q >= nbufs ==> size <= q
    {
      U.PoolSizeIsLeast(nbufs);
      hide U.Runs, U.After, Holds, RendersAll, IsPow2, BitAnd, At, Wrap32;
      if pbufTail.Some? {
        return Done(0);
      }
      var size := U.PoolSize(nbufs);
      var accepted: bool := *;
      if size > 0x8000 || !accepted {
        var mapped: bool := *;
        return OsError(if mapped then 1 else ENOMEM);
      }
      pbufTail := Some(size % U16);
      Record(U.RegisterPool(nbufs));
      r := Done(0);
    }

    /** Registers the buffer ring if there is none yet, then submits the one entry. */
    method SubmitMultiRecv(fd: int, nbufs: nat, userData: u64) returns (r: Outcome, ghost last: U.Step)
      requires Valid() && s.user.Idle?
      modifies this, sqes, order, cqes
      ensures Valid() && s.user.Idle?
      ensures r.Done? ==> s.pool.Some? && inFlight == Wrap32(old(inFlight) + 1)
      ensures !r.Done? ==> inFlight == old(inFlight)
      ensures s.pool.None? ==> r.OsError? && s == old(s) && trace == old(trace)
      ensures s.pool.Some? ==>
                Calls(trace) == Calls(old(trace))
                                + (if old(s).pool.None? then [U.RegisterPool(nbufs)] else [])
                                + [U.SubmitBegin, U.Publish(MultiRecv(fd, 0, userData)), last]
    {
      last := U.SubmitNothing;
      r := EnsurePool(nbufs);
      if r.OsError? {
        return;
      }
      assert Calls(trace) == Calls(old(trace)) + (if old(s).pool.None? then [U.RegisterPool(nbufs)] else []);
      r, last := SubmitEntry(RecvMany(fd, 0, userData));
    }

    // ----- Reaping -----

    /** Drains the completion ring while the kernel goes on posting (finitely many completions).
        The results are the completions the machine reaped, in order; the counter goes down by
        the disarming ones only, and each buffer seen is given back once.  The loop ends when the
        ring is empty, or full. */
    method Reap(results: seq<TorusResult>) returns (filled: seq<TorusResult>, count: nat, ghost got: seq<U.Cqe>)
      requires Valid() && s.user.Idle?
      modifies this, cqes
      ensures Valid() && s.user.Idle? && registered == old(registered)
      ensures s.h.accepted == old(s).h.accepted && s.h.reaped == old(s).h.reaped + got
      ensures filled == results + AsResults(got) && count == |got|
      ensures forall i :: 0 <= i < count ==> filled[|results| + i] == TorusResult(got[i].res, got[i].userData)
      ensures Calls(trace) == Calls(old(trace)) + [U.ReapBegin] + Ones(count) + [U.ReapEnd]
      ensures s.cq == [] <==> |s.cq| < cqEntries
      ensures inFlight == (old(inFlight) - U.Terminal(got)) % U32
      ensures old(pbufTail).Some? ==> pbufTail == Some((old(pbufTail).value + U.Carrying(got)) % U16)
    {
      hide U.Runs, U.After, U.Apply, U.Inv, Holds, RendersAll, IsPow2, BitAnd, At, Slot, Masked, Wrap32,
           U.Enabled, AsResults, U.Terminal, U.Carrying, Tallied, Ones;
      BeginFrame(s);
      Record(U.ReapBegin);
      var dec: u32, bufs: u16;
      filled, count, got, dec, bufs := TakeAll(results);
      TakenOff(inFlight, got, dec, bufs, if pbufTail.Some? then pbufTail.value else 0);
      FinishReap(dec, bufs);
      ResultsInOrder(got);
    }

    /** The loop: one completion after the other, with their two counts. */
    method TakeAll(results: seq<TorusResult>)
      returns (filled: seq<TorusResult>, count: nat, ghost got: seq<U.Cqe>, dec: u32, bufs: u16)
      requires Valid() && s.user == U.Draining(0, 0)
      modifies this`s, this`trace, this`cqHead, this`cqTail, this`cqPos, this`raws, cqes
      ensures Valid() && s.user == U.Draining(dec, bufs) && U.Enabled(s, U.ReapEnd) && (s.cq == [] <==> |s.cq| < cqEntries)
      ensures s.h.accepted == old(s).h.accepted && s.h.reaped == old(s).h.reaped + got
      ensures filled == results + AsResults(got) && count == |got| && Tallied(got, dec, bufs)
      ensures Calls(trace) == Calls(old(trace)) + Ones(count)
    {
      hide U.Runs, U.After, U.Apply, U.Inv, Holds, RendersAll, IsPow2, BitAnd, At, Slot, Masked, Wrap32,
           U.Enabled, AsResults, U.Terminal, U.Carrying, Tallied, Ones;
      filled, count, got, dec, bufs := results, 0, [], 0, 0;
      var budget: nat := *;
      NoResults();
      while true
        invariant Valid() && s.user == U.Draining(dec, bufs)
        invariant s.h.accepted == old(s).h.accepted && s.h.reaped == old(s).h.reaped + got
        invariant filled == results + AsResults(got) && count == |got| && Tallied(got, dec, bufs)
        invariant Calls(trace) == Calls(old(trace)) + Ones(count)
        decreases budget + |s.cq|
      {
        budget := Interfere(budget);
        LoopTest();
        if Masked(cqTail, cqHead, cqEntries) == 0 {
          break;
        }
        ghost var c := s.cq[0];
        var r: TorusResult;
        TallyOne(got, c, dec, bufs);
        r, dec, bufs := TakeOne(dec, bufs);
        OneMoreResult(got, c);
        OneMore(count);
        Assoc(results, AsResults(got), [r]);
        Assoc(old(s).h.reaped, got, [c]);
        Assoc(Calls(old(trace)), Ones(count), [U.ReapOne]);
        filled, count, got := filled + [r], count + 1, got + [c];
      }
    }

    /** The masked distance is the machine's view of the ring. */
    lemma LoopTest()
      requires Valid() && s.user.Draining?
      ensures var seen := Masked(cqTail, cqHead, cqEntries);
              && (seen != 0 ==> U.Enabled(s, U.ReapOne) && s.cq != [])
              && (seen == 0 ==> U.Enabled(s, U.ReapEnd) && (s.cq == [] <==> |s.cq| < cqEntries))
    {
      hide U.Runs, U.After, Holds, RendersAll, IsPow2, BitAnd, Masked, Wrap32;
      MaskedDistance(cqPos, |s.cq|, cqEntries);
    }

    /** After the loop: the counter and the buffer ring's tail. */
    method FinishReap(dec: u32, bufs: u16)
      requires Valid() && U.Enabled(s, U.ReapEnd) && s.user == U.Draining(dec, bufs)
      modifies this`s, this`trace, this`inFlight, this`pbufTail
      ensures Valid() && s.user.Idle? && s.cq == old(s).cq && s.h == old(s).h
      ensures Calls(trace) == Calls(old(trace)) + [U.ReapEnd]
      ensures inFlight == Sub32(old(inFlight), dec)
      ensures old(pbufTail).Some? ==> pbufTail == Some((old(pbufTail).value + bufs) % U16)
    {
      hide U.Runs, U.After, U.Apply, Holds, RendersAll, IsPow2, BitAnd, At, Wrap32;
      EndFrame(s);
      inFlight := Sub32(inFlight, dec);
      if bufs > 0 && pbufTail.Some? {
        pbufTail := Some((pbufTail.value + bufs) % U16);
      }
      Record(U.ReapEnd);
    }

    /** One iteration: reads the head slot, looks at its flags, advances the head. */
    method TakeOne(dec: u32, bufs: u16) returns (r: TorusResult, dec': u32, bufs': u16)
      requires Valid() && s.user == U.Draining(dec, bufs) && U.Enabled(s, U.ReapOne)
      modifies this`s, this`trace, this`cqHead, this`cqPos, this`raws
      ensures Valid() && s == U.Apply(old(s), U.ReapOne) && Calls(trace) == Calls(old(trace)) + [U.ReapOne]
      ensures s.user == U.Draining(dec', bufs') && |s.cq| == |old(s).cq| - 1
      ensures var c := old(s).cq[0];
              && s.h.reaped == old(s).h.reaped + [c] && s.h.accepted == old(s).h.accepted
              && r == TorusResult(c.res, c.userData)
              && dec' == (if c.more then dec else Wrap32(dec + 1))
              && bufs' == (if c.buffer && c.res >= 0 then (bufs + 1) % U16 else bufs)
    {
      hide U.Runs, U.After, U.Apply, U.Inv, Holds, RendersAll, IsPow2, BitAnd, At, Slot, Masked, Wrap32;
      dec', bufs' := dec, bufs;
      var cqe := ReadHead();
      FlagBits(cqe.flags);
      hide HasBuffer, HasMore;
      if BitAnd(cqe.flags, F_BUFFER) != 0 && cqe.res >= 0 {
        bufs' := (bufs + 1) % U16;
      }
      r := TorusResult(cqe.res, cqe.userData);
      if BitAnd(cqe.flags, F_MORE) == 0 {
        dec' := Wrap32(dec + 1);
      }
      Advance(cqPos, 1);
      PopFrame(s);
      cqHead := Wrap32(cqHead + 1);
      cqPos, raws := cqPos + 1, raws[1..];
      Record(U.ReapOne);
    }

    method ReadHead() returns (cqe: RawCqe)
      requires Valid() && s.cq != []
      ensures raws != [] && Renders(cqe, s.cq[0]) && Holds(cqes[..], cqPos + 1, raws[1..]) && RendersAll(raws[1..], s.cq[1..])
    {
      hide U.Runs, U.After, U.Apply, U.Inv, Holds, RendersAll, Renders, IsPow2, BitAnd, At, Slot, Masked, Wrap32;
      SlotOfPosition(cqPos, cqEntries);
      PopKeeps(cqes[..], cqPos, raws);
      RendersTheRest(raws, s.cq);
      cqe := cqes[Slot(cqHead, cqEntries)];
    }

    // ----- Registered buffers -----

    /** The kernel's answer decides; on success the table is rebuilt, on an empty list nothing
        happens and an earlier table stays in force. */
    method RegisterBuffers(buffers: seq<L.RegisterBuffer>) returns (r: Outcome)
      requires Valid()
      modifies this`registered
      ensures Valid() && (r.Done? || r == OsError(1))
      ensures registered == if buffers == [] || r.OsError? then old(registered) else RegisterTable(buffers)
    {
      if buffers == [] {
        return Done(0);
      }
      var accepted: bool := *;
      if !accepted {
        return OsError(1);
      }
      registered := map[];
      for i := 0 to |buffers|
        invariant registered == RegisterTable(buffers[..i]) && Valid()
      {
        assert buffers[..i + 1][..i] == buffers[..i];
        registered := registered[buffers[i].base := Wrap32(i)];
      }
      assert buffers[..|buffers|] == buffers;
      r := Done(0);
    }
  }
}
