/** The io_uring backend and the kernel as one machine.  The user side publishes entries, enters
    the kernel and reaps; the kernel takes entries, posts completions and picks provided buffers.
    Kernel steps interleave with everything.  Ring positions are unbounded here; `UringObject`
    ties them to the wrapping 32-bit counters. */
module Uring {
  import opened Counting
  import opened Flows
  import opened RingIndex
  import opened UringLowering
  import opened Words

  /** A completion.  `serial` numbers the accepted entry it answers; `more` and `buffer` are the
      two flag bits the code looks at. */
  datatype Cqe = Cqe(serial: nat, res: int, userData: u64, more: bool, buffer: bool)

  /** The provided-buffer ring: its size, the tail the program advances and the kernel's head. */
  datatype Pool = Pool(entries: nat, tail: u16, khead: u16)

  /** What the user side is doing: nothing, publishing a batch, or draining the completion ring
      with `dec` operations disarmed and `bufs` buffers to give back so far. */
  datatype User = Idle | Submitting(k: u32) | Draining(dec: u32, bufs: u16)

  datatype Sys = Sys(
    slots: seq<Sqe>, sqHead: nat, sqTail: nat, armed: set<nat>, cq: seq<Cqe>, cqEntries: Size,
    inFlight: u32, pool: Option<Pool>, user: User, h: History)

  /** The entries published and those the kernel has accepted, the completions reaped, and how
      many entries the kernel left behind in calls that counted them as submitted. */
  datatype History = History(published: seq<Sqe>, accepted: seq<Sqe>, reaped: seq<Cqe>, short: nat)

  datatype Step =
    | RegisterPool(nbufs: nat)
    | SubmitBegin
    | Publish(e: Sqe)
    | SubmitNothing
    | Enter(taken: Option<nat>)
    | Post(n: nat, res: int, more: bool, buffer: bool)
    | ReapBegin
    | ReapOne
    | ReapEnd

  /** `nbufs.max(2).next_power_of_two()`. */
  function PoolSize(nbufs: nat): nat {
    NextPow2(if nbufs < 2 then 2 else nbufs)
  }

  /** The least power of two that is at least two and has room for the buffers asked for. */
  lemma PoolSizeIsLeast(nbufs: nat)
    ensures IsPow2(PoolSize(nbufs)) && PoolSize(nbufs) >= 2 && PoolSize(nbufs) >= nbufs
    ensures forall q: nat :: IsPow2(q) && q >= 2 && q >= nbufs ==> PoolSize(nbufs) <= q
  {
    forall q: nat | IsPow2(q) && q >= 2 && q >= nbufs ensures PoolSize(nbufs) <= q {
      NextPow2Least(if nbufs < 2 then 2 else nbufs, q);
    }
  }

  /** The multi-shot requests are multi-shot to the kernel, and no plain flow is. */
  lemma OnlyTheseAreMultishot(fd: int, addr: u64, addrlenPtr: u64, bgid: u16, target: u64, userData: u64, reg: Registered, flow: Flow)
    requires Modelled(flow.op)
    ensures IsMultishot(MultiAccept(fd, addr, addrlenPtr, userData)) && !IsMultiRecv(MultiAccept(fd, addr, addrlenPtr, userData))
    ensures IsMultiRecv(MultiRecv(fd, bgid, userData))
    ensures !IsMultishot(Cancel(target, userData)) && !IsMultishot(Lower(reg, flow))
  {
    NoStrayFields(reg, flow);
    hide Fill, FillOp;
    CallForms(fd, addr, addrlenPtr, bgid, target, userData);
  }

  lemma CallForms(fd: int, addr: u64, addrlenPtr: u64, bgid: u16, target: u64, userData: u64)
    ensures MultiAccept(fd, addr, addrlenPtr, userData).opcode == 13 && MultiAccept(fd, addr, addrlenPtr, userData).ioprio == 1
    ensures var e := MultiRecv(fd, bgid, userData); e.opcode == 27 && e.ioprio == 2 && e.flags == 32
    ensures Cancel(target, userData).opcode == 14
  {
  }

  /** A drained submission ring whose counters stand anywhere, with whatever its slots contain. */
  function Start(slots: seq<Sqe>, pos: nat, cqEntries: Size): Sys {
    Sys(slots, pos, pos, {}, [], cqEntries, 0, None, Idle, History([], [], [], 0))
  }

  predicate IsMultiRecv(e: Sqe) {
    e.opcode == 27 && e.ioprio == 2 && e.flags == 32
  }

  predicate IsMultishot(e: Sqe) {
    IsMultiRecv(e) || (e.opcode == 13 && e.ioprio == 1)
  }

  function Credits(p: Pool): u16 {
    Sub16(p.tail, p.khead)
  }

  predicate HasCredit(s: Sys) {
    s.pool.Some? && Credits(s.pool.value) > 0
  }

  /** The code's own view of the completion ring's length. */
  function Visible(s: Sys): nat {
    |s.cq| % s.cqEntries
  }

  function Min(a: nat, b: nat): nat {
    if a < b then a else b
  }

  predicate Enabled(s: Sys, e: Step) {
    match e
    case RegisterPool(nbufs) => s.user.Idle? && s.pool.None? && PoolSize(nbufs) <= 0x8000
    case SubmitBegin => s.user.Idle?
    case Publish(_) => s.user.Submitting? && s.slots != []
    case SubmitNothing => s.user.Submitting? && s.user.k == 0
    case Enter(taken) =>
      && s.user.Submitting? && s.user.k > 0 && s.slots != [] && s.sqHead <= s.sqTail
      && (taken.Some? ==> taken.value <= Min(s.user.k, Min(s.sqTail - s.sqHead, |s.slots|)))
    case Post(n, res, more, buffer) =>
      && n in s.armed && n < |s.h.accepted| && |s.cq| < s.cqEntries
      && (more ==> IsMultishot(s.h.accepted[n]))
      && (buffer ==> IsMultiRecv(s.h.accepted[n]) && HasCredit(s) && res >= 0)
    case ReapBegin => s.user.Idle?
    case ReapOne => s.user.Draining? && Visible(s) != 0 && s.cq != []
    case ReapEnd => s.user.Draining? && Visible(s) == 0
  }

  /** The entries in `count` slots from position `pos` on. */
  function ReadSlots(slots: seq<Sqe>, pos: nat, count: nat): (r: seq<Sqe>)
    requires slots != []
    ensures |r| == count
  {
    seq(count, i requires 0 <= i < count => slots[At(pos + i, |slots|)])
  }

  function Serials(from: nat, count: nat): (r: set<nat>)
    ensures |r| == count && forall n: nat :: n in r <==> from <= n < from + count
  {
    if count == 0 then {} else Serials(from, count - 1) + {from + count - 1}
  }

  function Apply(s: Sys, e: Step): Sys
    requires Enabled(s, e)
  {
    match e
    case RegisterPool(nbufs) => s.(pool := Some(Pool(PoolSize(nbufs), PoolSize(nbufs), 0)))
    case SubmitBegin => s.(user := Submitting(0))
    case Publish(sqe) =>
      s.(slots := s.slots[At(s.sqTail, |s.slots|) := sqe], sqTail := s.sqTail + 1, user := Submitting(Wrap32(s.user.k + 1)),
         h := s.h.(published := s.h.published + [sqe]))
    case SubmitNothing => s.(user := Idle)
    case Enter(taken) =>
      if taken.None? then s.(user := Idle)
      else
        var t := taken.value;
        s.(user := Idle, sqHead := s.sqHead + t, inFlight := Wrap32(s.inFlight + s.user.k),
           armed := s.armed + Serials(|s.h.accepted|, t),
           h := s.h.(accepted := s.h.accepted + ReadSlots(s.slots, s.sqHead, t), short := s.h.short + (s.user.k - t)))
    case Post(n, res, more, buffer) =>
      s.(cq := s.cq + [Cqe(n, res, s.h.accepted[n].userData, more, buffer)],
         armed := if more then s.armed else s.armed - {n},
         pool := if buffer then Some(s.pool.value.(khead := (s.pool.value.khead + 1) % U16)) else s.pool)
    case ReapBegin => s.(user := Draining(0, 0))
    case ReapOne =>
      var c := s.cq[0];
      s.(cq := s.cq[1..], h := s.h.(reaped := s.h.reaped + [c]),
         user := Draining(if c.more then s.user.dec else Wrap32(s.user.dec + 1),
                          if c.buffer && c.res >= 0 then (s.user.bufs + 1) % U16 else s.user.bufs))
    case ReapEnd =>
      s.(user := Idle, inFlight := Sub32(s.inFlight, s.user.dec),
         pool := if s.pool.Some? then Some(s.pool.value.(tail := (s.pool.value.tail + s.user.bufs) % U16)) else None)
  }

  ghost predicate Runs(s: Sys, trace: seq<Step>)
    decreases |trace|
  {
    trace == [] || (Enabled(s, trace[0]) && Runs(Apply(s, trace[0]), trace[1..]))
  }

  ghost function After(s: Sys, trace: seq<Step>): Sys
    requires Runs(s, trace)
    decreases |trace|
  {
    if trace == [] then s else After(Apply(s, trace[0]), trace[1..])
  }

  // ----- Counting completions -----

  function Finals(q: seq<Cqe>): seq<bool> {
    seq(|q|, i requires 0 <= i < |q| => !q[i].more)
  }

  function Returns(q: seq<Cqe>): seq<bool> {
    seq(|q|, i requires 0 <= i < |q| => q[i].buffer && q[i].res >= 0)
  }

  /** How many queued completions disarm their operation, and how many carry a buffer. */
  function Terminal(q: seq<Cqe>): nat {
    Count(Finals(q))
  }

  function Carrying(q: seq<Cqe>): nat {
    Count(Returns(q))
  }

  lemma PostCounts(q: seq<Cqe>, c: Cqe)
    ensures Terminal(q + [c]) == Terminal(q) + (if c.more then 0 else 1)
    ensures Carrying(q + [c]) == Carrying(q) + (if c.buffer && c.res >= 0 then 1 else 0)
  {
    assert Finals(q + [c]) == Finals(q) + [!c.more];
    assert Returns(q + [c]) == Returns(q) + [c.buffer && c.res >= 0];
    CountAppend(Finals(q), !c.more);
    CountAppend(Returns(q), c.buffer && c.res >= 0);
  }

  lemma PopCounts(q: seq<Cqe>)
    requires q != []
    ensures Terminal(q[1..]) == Terminal(q) - (if q[0].more then 0 else 1)
    ensures Carrying(q[1..]) == Carrying(q) - (if q[0].buffer && q[0].res >= 0 then 1 else 0)
  {
    assert Finals(q)[1..] == Finals(q[1..]);
    assert Returns(q)[1..] == Returns(q[1..]);
  }

  // ----- The in-flight counter -----

  function Disarmed(s: Sys): nat {
    if s.user.Draining? then s.user.dec else 0
  }

  /** What the counter owes: armed operations, disarming completions not yet taken off, and
      entries counted but left behind. */
  function Owed(s: Sys): nat {
    |s.armed| + Terminal(s.cq) + s.h.short + Disarmed(s)
  }

  ghost predicate Counted(s: Sys) {
    && s.inFlight == Owed(s) % U32
    && (forall n :: n in s.armed ==> n < |s.h.accepted|)
  }

  lemma WrapAdd(a: nat, b: nat)
    ensures (a % U32 + b) % U32 == (a + b) % U32
  {
  }

  lemma WrapSub(a: nat, d: u32)
    ensures Sub32((a + d) % U32, d) == a % U32
  {
  }

  lemma CountedEnter(s: Sys, taken: Option<nat>)
    requires Counted(s) && Enabled(s, Enter(taken))
    ensures Counted(Apply(s, Enter(taken)))
  {
    if taken.Some? {
      EnterOwes(s, taken.value);
      WrapAdd(Owed(s), s.user.k);
      hide Apply, Owed;
    }
  }

  /** Taken or left behind, each entry of the batch is owed for. */
  lemma EnterOwes(s: Sys, taken: nat)
    requires Counted(s) && Enabled(s, Enter(Some(taken)))
    ensures var t := Apply(s, Enter(Some(taken)));
            && t.inFlight == (s.inFlight + s.user.k) % U32 && Owed(t) == Owed(s) + s.user.k
            && forall n :: n in t.armed ==> n < |t.h.accepted|
  {
    hide Terminal;
    var more := Serials(|s.h.accepted|, taken);
    assert s.armed !! more;
    assert |s.armed + more| == |s.armed| + taken;
  }

  lemma CountedPost(s: Sys, n: nat, res: int, more: bool, buffer: bool)
    requires Counted(s) && Enabled(s, Post(n, res, more, buffer))
    ensures Counted(Apply(s, Post(n, res, more, buffer)))
  {
    hide Terminal;
    PostCounts(s.cq, Cqe(n, res, s.h.accepted[n].userData, more, buffer));
    if !more { assert |s.armed - {n}| == |s.armed| - 1; }
  }

  lemma WrapOne(a: nat, d: u32)
    ensures (a + Wrap32(d + 1)) % U32 == (a + d + 1) % U32
  {
  }

  lemma CountedReap(s: Sys, e: Step)
    requires Counted(s) && Enabled(s, e) && (e.ReapOne? || e.ReapEnd?)
    ensures Counted(Apply(s, e))
  {
    hide Terminal, Carrying, Visible;
    var rest := |s.armed| + Terminal(s.cq) + s.h.short;
    if e.ReapOne? {
      PopCounts(s.cq);
      if !s.cq[0].more { WrapOne(rest - 1, s.user.dec); }
      hide Wrap32;
    } else {
      WrapSub(rest, s.user.dec);
    }
  }

  lemma CountedStep(s: Sys, e: Step)
    requires Counted(s) && Enabled(s, e)
    ensures Counted(Apply(s, e))
  {
    match e
    case Enter(taken) => CountedEnter(s, taken);
    case Post(n, res, more, buffer) => CountedPost(s, n, res, more, buffer);
    case ReapOne => CountedReap(s, e);
    case ReapEnd => CountedReap(s, e);
    case _ => hide Terminal;
  }

  // ----- The completions of one operation -----

  /** All completions ever posted, oldest first. */
  function Log(s: Sys): seq<Cqe> {
    s.h.reaped + s.cq
  }

  /** A completion answers an accepted entry, with that entry's user data, and claims `more` or a
      buffer only if the entry allows it. */
  ghost predicate Fits(accepted: seq<Sqe>, c: Cqe) {
    && c.serial < |accepted| && c.userData == accepted[c.serial].userData
    && (c.more ==> IsMultishot(accepted[c.serial])) && (c.buffer ==> IsMultiRecv(accepted[c.serial]))
  }

  ghost predicate Over(log: seq<Cqe>, n: nat) {
    exists i :: 0 <= i < |log| && log[i].serial == n && !log[i].more
  }

  /** Nothing follows an operation's disarming completion, and an accepted operation is armed
      exactly until it has one. */
  ghost predicate Answered(accepted: seq<Sqe>, armed: set<nat>, log: seq<Cqe>) {
    && (forall c :: c in log ==> Fits(accepted, c))
    && (forall i, j :: 0 <= i < j < |log| && log[i].serial == log[j].serial ==> log[i].more)
    && (forall n: nat :: n in armed <==> n < |accepted| && !Over(log, n))
  }

  lemma AnsweredPost(accepted: seq<Sqe>, armed: set<nat>, log: seq<Cqe>, c: Cqe)
    requires Answered(accepted, armed, log) && c.serial in armed && Fits(accepted, c)
    ensures Answered(accepted, if c.more then armed else armed - {c.serial}, log + [c])
  {
    var after := log + [c];
    forall i, j | 0 <= i < j < |after| && after[i].serial == after[j].serial ensures after[i].more {
      assert j == |log| ==> log[i].more || Over(log, c.serial);
    }
    forall n: nat ensures Over(after, n) <==> Over(log, n) || (c.serial == n && !c.more) {
      if Over(log, n) {
        var i :| 0 <= i < |log| && log[i].serial == n && !log[i].more;
        assert after[i].serial == n;
      }
      if c.serial == n && !c.more { assert after[|log|].serial == n; }
    }
  }

  lemma AnsweredAccept(accepted: seq<Sqe>, armed: set<nat>, log: seq<Cqe>, more: seq<Sqe>)
    requires Answered(accepted, armed, log)
    ensures Answered(accepted + more, armed + Serials(|accepted|, |more|), log)
  {
    forall n: nat | Over(log, n) ensures n < |accepted| {
      var i :| 0 <= i < |log| && log[i].serial == n && !log[i].more;
      assert log[i] in log;
    }
  }

  lemma AnsweredStep(s: Sys, e: Step)
    requires Answered(s.h.accepted, s.armed, Log(s)) && Enabled(s, e)
    ensures var t := Apply(s, e); Answered(t.h.accepted, t.armed, Log(t))
  {
    var t := Apply(s, e);
    match e
    case Enter(taken) =>
      if taken.Some? { AnsweredAccept(s.h.accepted, s.armed, Log(s), ReadSlots(s.slots, s.sqHead, taken.value)); }
    case Post(n, res, more, buffer) =>
      var c := Cqe(n, res, s.h.accepted[n].userData, more, buffer);
      AnsweredPost(s.h.accepted, s.armed, Log(s), c);
      assert Log(t) == Log(s) + [c];
    case ReapOne => assert Log(t) == Log(s);
    case _ => hide Answered;
  }

  // ----- Provided buffers -----

  function Returning(s: Sys): u16 {
    if s.user.Draining? then s.user.bufs else 0
  }

  /** Every buffer is on offer to the kernel, in a completion, or about to be given back. */
  ghost predicate Pooled(s: Sys) {
    match s.pool
    case None => Carrying(s.cq) == 0 && Returning(s) == 0
    case Some(p) => 2 <= p.entries <= 0x8000 && Credits(p) + Carrying(s.cq) + Returning(s) == p.entries
  }

  lemma CreditMoves(tail: u16, khead: u16, d: u16)
    ensures Sub16(tail, khead) > 0 ==> Sub16(tail, (khead + 1) % U16) == Sub16(tail, khead) - 1
    ensures Sub16(tail, khead) + d < U16 ==> Sub16((tail + d) % U16, khead) == Sub16(tail, khead) + d
  {
  }

  lemma PooledStep(s: Sys, e: Step)
    requires Pooled(s) && Enabled(s, e)
    ensures Pooled(Apply(s, e))
  {
    hide Carrying;
    match e
    case RegisterPool(nbufs) => assert Carrying(s.cq) == 0;
    case Post(_, _, _, _) => PooledPost(s, e);
    case ReapOne => PooledPop(s);
    case ReapEnd => if s.pool.Some? { CreditMoves(s.pool.value.tail, s.pool.value.khead, s.user.bufs); }
    case _ =>
  }

  lemma PooledPost(s: Sys, e: Step)
    requires Pooled(s) && Enabled(s, e) && e.Post?
    ensures Pooled(Apply(s, e))
  {
    hide Carrying;
    PostCounts(s.cq, Cqe(e.n, e.res, s.h.accepted[e.n].userData, e.more, e.buffer));
    if e.buffer { CreditMoves(s.pool.value.tail, s.pool.value.khead, 0); }
  }

  lemma PooledPop(s: Sys)
    requires Pooled(s) && Enabled(s, ReapOne)
    ensures Pooled(Apply(s, ReapOne))
  {
    hide Carrying;
    PopCounts(s.cq);
  }

  // ----- All runs -----

  ghost predicate Inv(s: Sys) {
    && Counted(s) && Answered(s.h.accepted, s.armed, Log(s)) && Pooled(s)
    && |s.cq| <= s.cqEntries && s.sqHead <= s.sqTail && s.slots != []
  }

  lemma StepKeepsInv(s: Sys, e: Step)
    requires Inv(s) && Enabled(s, e)
    ensures Inv(Apply(s, e))
  {
    CountedStep(s, e);
    AnsweredStep(s, e);
    PooledStep(s, e);
    hide Counted, Answered, Pooled;
  }

  lemma StartIsGood(slots: seq<Sqe>, pos: nat, cqEntries: Size)
    requires slots != []
    ensures Inv(Start(slots, pos, cqEntries))
  {
  }

  lemma {:induction false} RunKeepsInv(s: Sys, trace: seq<Step>)
    requires Inv(s) && Runs(s, trace)
    ensures Inv(After(s, trace))
    decreases |trace|
  {
    hide Inv, Apply, Enabled;
    if trace != [] {
      StepKeepsInv(s, trace[0]);
      RunKeepsInv(Apply(s, trace[0]), trace[1..]);
    }
  }

  /** Between calls the counter is the number of armed operations plus the disarming completions
      nobody has reaped, plus the entries the kernel did not take; intermediate completions of
      multi-shot operations do not count. */
  lemma InFlightIsExact(slots: seq<Sqe>, pos: nat, cqEntries: Size, trace: seq<Step>)
    requires slots != [] && Runs(Start(slots, pos, cqEntries), trace) && After(Start(slots, pos, cqEntries), trace).user.Idle?
    ensures var s := After(Start(slots, pos, cqEntries), trace);
            s.inFlight == (|s.armed| + Terminal(s.cq) + s.h.short) % U32
    ensures var s := After(Start(slots, pos, cqEntries), trace);
            s.cq == [] ==> s.inFlight == (|s.armed| + s.h.short) % U32
  {
    hide Answered, Pooled, Terminal, Runs, After;
    StartIsGood(slots, pos, cqEntries);
    RunKeepsInv(Start(slots, pos, cqEntries), trace);
  }

  /** While fewer than 2^32 operations are owed, a reap never takes off more than the counter
      holds. */
  lemma ReapNeverUnderflows(slots: seq<Sqe>, pos: nat, cqEntries: Size, trace: seq<Step>)
    requires slots != [] && Runs(Start(slots, pos, cqEntries), trace)
    requires var s := After(Start(slots, pos, cqEntries), trace); s.user.Draining? && Owed(s) < U32
    ensures var s := After(Start(slots, pos, cqEntries), trace); s.user.dec <= s.inFlight
  {
    hide Answered, Pooled, Terminal, Runs, After;
    StartIsGood(slots, pos, cqEntries);
    RunKeepsInv(Start(slots, pos, cqEntries), trace);
  }

  /** An accepted entry is answered under its own user data; it is either still armed or has
      exactly one disarming completion, the last of its completions; and a one-shot entry has no
      other. */
  lemma EveryEntryEndsOnce(slots: seq<Sqe>, pos: nat, cqEntries: Size, trace: seq<Step>, n: nat)
    requires slots != [] && Runs(Start(slots, pos, cqEntries), trace) && n < |After(Start(slots, pos, cqEntries), trace).h.accepted|
    ensures var s := After(Start(slots, pos, cqEntries), trace); var log := Log(s);
            && (n in s.armed <==> !Over(log, n))
            && (forall i, j :: 0 <= i < j < |log| && log[i].serial == log[j].serial == n ==> log[i].more && IsMultishot(s.h.accepted[n]))
            && (forall i :: 0 <= i < |log| && log[i].serial == n ==> log[i].userData == s.h.accepted[n].userData)
  {
    StartIsGood(slots, pos, cqEntries);
    RunKeepsInv(Start(slots, pos, cqEntries), trace);
    var s := After(Start(slots, pos, cqEntries), trace);
    assert Answered(s.h.accepted, s.armed, Log(s));
    var log := Log(s);
    assert forall i :: 0 <= i < |log| ==> log[i] in log;
  }

  /** Every provided buffer is accounted for at all times, across any number of 16-bit wraps;
      between calls, with the completion ring empty, the kernel has all of them again. */
  lemma BuffersAreConserved(slots: seq<Sqe>, pos: nat, cqEntries: Size, trace: seq<Step>)
    requires slots != [] && Runs(Start(slots, pos, cqEntries), trace) && After(Start(slots, pos, cqEntries), trace).pool.Some?
    ensures var s := After(Start(slots, pos, cqEntries), trace); var p := s.pool.value;
            && Sub16(p.tail, p.khead) + Carrying(s.cq) + Returning(s) == p.entries
            && (s.user.Idle? && s.cq == [] ==> Sub16(p.tail, p.khead) == p.entries)
  {
    hide Answered, Counted, Carrying, Runs, After;
    StartIsGood(slots, pos, cqEntries);
    RunKeepsInv(Start(slots, pos, cqEntries), trace);
  }

  // ----- The full completion ring -----

  /** A reap ends on an empty ring or, having seen nothing, on a full one: it drained everything
      exactly if fewer completions than the ring has entries were waiting. */
  lemma ReapEndsEmptyOrFull(slots: seq<Sqe>, pos: nat, cqEntries: Size, trace: seq<Step>)
    requires slots != [] && Runs(Start(slots, pos, cqEntries), trace)
    requires Enabled(After(Start(slots, pos, cqEntries), trace), ReapEnd)
    ensures var s := After(Start(slots, pos, cqEntries), trace); s.cq == [] <==> |s.cq| < s.cqEntries
  {
    hide Counted, Answered, Pooled, Visible;
    StartIsGood(slots, pos, cqEntries);
    RunKeepsInv(Start(slots, pos, cqEntries), trace);
    var s := After(Start(slots, pos, cqEntries), trace);
    EmptyOrFull(s);
  }

  lemma EmptyOrFull(s: Sys)
    requires |s.cq| <= s.cqEntries && Visible(s) == 0
    ensures s.cq == [] <==> |s.cq| < s.cqEntries
  {
    if |s.cq| < s.cqEntries {
      Quotient(|s.cq|, s.cqEntries, 0, |s.cq|);
    }
  }

  /** Once the ring has filled, no completion is ever reaped or posted again, whatever anybody
      does. */
  lemma {:induction false} FullRingIsStuck(s: Sys, trace: seq<Step>)
    requires |s.cq| == s.cqEntries && Runs(s, trace)
    ensures After(s, trace).cq == s.cq && After(s, trace).h.reaped == s.h.reaped
    decreases |trace|
  {
    if trace != [] {
      FullStep(s, trace[0]);
      hide Apply, Enabled;
      FullRingIsStuck(Apply(s, trace[0]), trace[1..]);
    }
  }

  lemma FullStep(s: Sys, e: Step)
    requires |s.cq| == s.cqEntries && Enabled(s, e)
    ensures var t := Apply(s, e); t.cq == s.cq && t.cqEntries == s.cqEntries && t.h.reaped == s.h.reaped
  {
    Quotient(|s.cq|, s.cqEntries, 1, 0);
  }

  // ----- Entries the kernel leaves behind -----

  /** A call the kernel answers takes all entries of its batch. */
  predicate TakesAll(s: Sys, e: Step) {
    e.Enter? && e.taken.Some? && s.user.Submitting? ==> e.taken.value == s.user.k
  }

  ghost predicate AllTaken(s: Sys, trace: seq<Step>)
    requires Runs(s, trace)
    decreases |trace|
  {
    trace == [] || (TakesAll(s, trace[0]) && AllTaken(Apply(s, trace[0]), trace[1..]))
  }

  /** The counter is off (too high, for good) exactly if some call took less than its batch. */
  lemma {:induction false} ShortIffNotAllTaken(s: Sys, trace: seq<Step>)
    requires Runs(s, trace)
    ensures After(s, trace).h.short >= s.h.short
    ensures After(s, trace).h.short == s.h.short <==> AllTaken(s, trace)
    decreases |trace|
  {
    if trace != [] {
      ShortStep(s, trace[0]);
      hide Apply, Enabled, TakesAll;
      ShortIffNotAllTaken(Apply(s, trace[0]), trace[1..]);
    }
  }

  lemma ShortStep(s: Sys, e: Step)
    requires Enabled(s, e)
    ensures Apply(s, e).h.short >= s.h.short
    ensures Apply(s, e).h.short == s.h.short <==> TakesAll(s, e)
  {
  }

  // ----- The submission ring is a queue -----

  function PublishAll(s: Sys, q: seq<Sqe>): (t: Sys)
    requires s.user.Submitting? && s.slots != []
    ensures t.user.Submitting? && |t.slots| == |s.slots| && t.sqHead == s.sqHead && t.sqTail == s.sqTail + |q|
    ensures t.h == s.h.(published := s.h.published + q) && t.armed == s.armed && t.inFlight == s.inFlight && t.user.k == (s.user.k + |q|) % U32
    decreases |q|
  {
    if q == [] then s
    else
      WrapAdd(s.user.k + |q| - 1, 1);
      assert q[..|q| - 1] + [q[|q| - 1]] == q;
      assert s.h.published + q == s.h.published + q[..|q| - 1] + [q[|q| - 1]];
      Apply(PublishAll(s, q[..|q| - 1]), Publish(q[|q| - 1]))
  }

  /** Of a batch of any size, from any position, the last ring-full is in its slots, and slots
      the batch does not reach keep what they had. */
  lemma {:induction false} LastRingFull(s: Sys, q: seq<Sqe>, i: nat)
    requires s.user.Submitting? && s.slots != []
    requires |q| <= i + |s.slots| && (i < |q| || i < |s.slots|)
    ensures PublishAll(s, q).slots[At(s.sqTail + i, |s.slots|)] ==
            if i < |q| then q[i] else s.slots[At(s.sqTail + i, |s.slots|)]
    decreases |q|
  {
    if q != [] {
      var front := q[..|q| - 1];
      var n := |s.slots|;
      if i != |front| { LastRingFull(s, front, i); }
      if i < |front| {
        RemaindersDiffer(s.sqTail + i, s.sqTail + |front|, n);
      } else if i > |front| && i < |front| + n {
        RemaindersDiffer(s.sqTail + |front|, s.sqTail + i, n);
      }
      hide At;
    }
  }

  ghost predicate DistinctTags(q: seq<Sqe>) {
    forall i, j :: 0 <= i < j < |q| ==> q[i].userData != q[j].userData
  }

  /** What the kernel reads from a drained ring after a batch `q`: the batch, if it fits; else
      the first entry has been overwritten. */
  lemma BatchThatFits(s: Sys, q: seq<Sqe>)
    requires s.user.Submitting? && s.slots != [] && s.sqHead == s.sqTail && |q| <= |s.slots|
    ensures ReadSlots(PublishAll(s, q).slots, s.sqHead, |q|) == q
  {
    hide At, PublishAll;
    var read := ReadSlots(PublishAll(s, q).slots, s.sqHead, |q|);
    forall i | 0 <= i < |q| ensures read[i] == q[i] {
      LastRingFull(s, q, i);
    }
  }

  lemma BatchThatDoesNot(s: Sys, q: seq<Sqe>)
    requires s.user.Submitting? && s.slots != [] && s.sqHead == s.sqTail && |q| > |s.slots|
    ensures exists i :: 0 < i < |q| && ReadSlots(PublishAll(s, q).slots, s.sqHead, |s.slots|)[0] == q[i]
  {
    hide At, PublishAll;
    var i := LastLap(s.sqTail, |q|, |s.slots|);
    LastRingFull(s, q, i);
    assert s.sqTail + 0 == s.sqTail;
  }

  /** From a drained ring at any position, a batch that fits the ring reaches the kernel whole
      and in order; of a batch that does not, the kernel reads later entries in place of the
      first ones. */
  lemma SubmitRefinesFifo(s: Sys, q: seq<Sqe>)
    requires s.user == Submitting(0) && s.slots != [] && s.sqHead == s.sqTail && 0 < |q| < U32
    ensures var t := PublishAll(s, q); var n := Min(|q|, |s.slots|);
            && Enabled(t, Enter(Some(n)))
            && (|q| <= |s.slots| ==> Apply(t, Enter(Some(n))).h.accepted == s.h.accepted + q)
            && (DistinctTags(q) ==> (Apply(t, Enter(Some(n))).h.accepted == s.h.accepted + q[..n] <==> |q| <= |s.slots|))
  {
    hide Apply, Enabled, ReadSlots, PublishAll, DistinctTags;
    var t := PublishAll(s, q);
    var n := Min(|q|, |s.slots|);
    CallTakes(s, q, n);
    var read := ReadSlots(t.slots, t.sqHead, n);
    CancelLeft(s.h.accepted, read, q[..n]);
    if |q| <= |s.slots| {
      BatchThatFits(s, q);
      assert q[..n] == q;
    } else if DistinctTags(q) {
      OverfullDiffers(s, q);
    }
  }

  lemma OverfullDiffers(s: Sys, q: seq<Sqe>)
    requires s.user.Submitting? && s.slots != [] && s.sqHead == s.sqTail && |q| > |s.slots| && DistinctTags(q)
    ensures ReadSlots(PublishAll(s, q).slots, s.sqHead, |s.slots|) != q[..|s.slots|]
  {
    hide PublishAll, ReadSlots;
    BatchThatDoesNot(s, q);
    assert q[..|s.slots|][0] == q[0];
  }

  lemma CancelLeft<T>(a: seq<T>, x: seq<T>, y: seq<T>)
    ensures a + x == a + y <==> x == y
  {
    assert (a + x)[|a|..] == x && (a + y)[|a|..] == y;
  }

  lemma Accepts(t: Sys, n: nat)
    requires t.user.Submitting? && t.user.k > 0 && t.slots != [] && t.sqHead <= t.sqTail
    requires n <= t.user.k && n <= t.sqTail - t.sqHead && n <= |t.slots|
    ensures Enabled(t, Enter(Some(n))) && Apply(t, Enter(Some(n))).h.accepted == t.h.accepted + ReadSlots(t.slots, t.sqHead, n)
  {
  }

  /** The last entry of a batch of `len` that lands in the first entry's slot. */
  lemma LastLap(pos: nat, len: nat, m: nat) returns (i: nat)
    requires 0 < m < len
    ensures 0 < i < len <= i + m && At(pos + i, m) == At(pos, m)
  {
    var c := (len - 1) / m;
    i := m * c;
    assert len - 1 == i + (len - 1) % m;
    assert c >= 1;
    Multiple(m, c);
    assert pos == m * (pos / m) + pos % m;
    assert m * (pos / m + c) == m * (pos / m) + i;
    Quotient(pos + i, m, pos / m + c, pos % m);
  }

  // ----- The submission ring over whole runs -----

  /** No entry is published while a ring-full is outstanding. */
  predicate FitsIn(s: Sys, e: Step) {
    e.Publish? ==> s.sqTail - s.sqHead < |s.slots|
  }

  ghost predicate NeverOverfull(s: Sys, trace: seq<Step>)
    requires Runs(s, trace)
    decreases |trace|
  {
    trace == [] || (FitsIn(s, trace[0]) && NeverOverfull(Apply(s, trace[0]), trace[1..]))
  }

  /** What was published is what was accepted, followed by what the ring holds. */
  ghost predicate Queued(s: Sys) {
    && s.h.accepted <= s.h.published && s.sqTail - s.sqHead == |s.h.published| - |s.h.accepted|
    && Holds(s.slots, s.sqHead, s.h.published[|s.h.accepted|..])
  }

  lemma {:induction false} PopMany(slots: seq<Sqe>, pos: nat, q: seq<Sqe>, count: nat)
    requires Holds(slots, pos, q) && count <= |q|
    ensures ReadSlots(slots, pos, count) == q[..count] && Holds(slots, pos + count, q[count..])
  {
    hide At;
    forall i | 0 <= i < |q| - count ensures slots[At(pos + count + i, |slots|)] == q[count..][i] {
      assert slots[At(pos + (count + i), |slots|)] == q[count + i];
    }
  }

  lemma QueuedPublish(s: Sys, e: Sqe)
    requires Queued(s) && Enabled(s, Publish(e)) && FitsIn(s, Publish(e))
    ensures Queued(Apply(s, Publish(e)))
  {
    hide Holds, At;
    var k := |s.h.accepted|;
    PostKeeps(s.slots, s.sqHead, s.h.published[k..], e);
    assert (s.h.published + [e])[k..] == s.h.published[k..] + [e];
    assert s.sqHead + |s.h.published[k..]| == s.sqTail;
  }

  lemma QueuedEnter(s: Sys, taken: nat)
    requires Queued(s) && Enabled(s, Enter(Some(taken)))
    ensures Queued(Apply(s, Enter(Some(taken))))
  {
    hide Holds, ReadSlots, At;
    var k := |s.h.accepted|;
    PopMany(s.slots, s.sqHead, s.h.published[k..], taken);
    Accepts(s, taken);
    assert s.h.accepted + s.h.published[k..][..taken] == s.h.published[..k + taken];
    assert s.h.published[k..][taken..] == s.h.published[k + taken..];
  }

  lemma QueuedStep(s: Sys, e: Step)
    requires Queued(s) && Enabled(s, e) && FitsIn(s, e)
    ensures Queued(Apply(s, e))
  {
    match e
    case Publish(sqe) => QueuedPublish(s, sqe);
    case Enter(taken) => if taken.Some? { QueuedEnter(s, taken.value); }
    case _ => hide Holds;
  }

  lemma {:induction false} QueuedRun(s: Sys, trace: seq<Step>)
    requires Queued(s) && Runs(s, trace) && NeverOverfull(s, trace)
    ensures Queued(After(s, trace))
    decreases |trace|
  {
    if trace != [] {
      hide Apply, Enabled, Queued, FitsIn;
      QueuedStep(s, trace[0]);
      QueuedRun(Apply(s, trace[0]), trace[1..]);
    }
  }

  /** Over every run that never publishes into a full ring, with any number of failed and partial
      calls, the kernel accepts entries in exactly the order in which they were published, and the
      ring holds the rest. */
  lemma RingIsFifo(slots: seq<Sqe>, pos: nat, cqEntries: Size, trace: seq<Step>)
    requires slots != [] && Runs(Start(slots, pos, cqEntries), trace) && NeverOverfull(Start(slots, pos, cqEntries), trace)
    ensures var s := After(Start(slots, pos, cqEntries), trace);
            && s.slots != [] && s.sqHead <= s.sqTail
            && s.h.accepted + ReadSlots(s.slots, s.sqHead, s.sqTail - s.sqHead) == s.h.published
  {
    hide Runs, After, NeverOverfull, ReadSlots;
    QueuedRun(Start(slots, pos, cqEntries), trace);
    var s := After(Start(slots, pos, cqEntries), trace);
    var rest := s.h.published[|s.h.accepted|..];
    PopMany(s.slots, s.sqHead, rest, |rest|);
    assert s.h.accepted + rest == s.h.published;
  }

  /** What has been published and not accepted. */
  function Waiting(s: Sys): seq<Sqe> {
    if |s.h.accepted| <= |s.h.published| then s.h.published[|s.h.accepted|..] else []
  }

  lemma {:induction false} QueuedBatch(s: Sys, q: seq<Sqe>)
    requires s.user.Submitting? && s.slots != [] && Queued(s) && s.sqTail - s.sqHead + |q| <= |s.slots|
    ensures Queued(PublishAll(s, q))
    decreases |q|
  {
    if q != [] {
      var front := q[..|q| - 1];
      QueuedBatch(s, front);
      hide Queued;
      QueuedPublish(PublishAll(s, front), q[|q| - 1]);
    }
  }

  /** At any point of a run that never publishes into a full ring, a call whose batch fits makes
      the kernel take what was waiting before it first, so the entries taken are the call's own if
      and only if the ring was drained when the call began. */
  lemma OwnEntriesIffDrained(slots: seq<Sqe>, pos: nat, cqEntries: Size, trace: seq<Step>, q: seq<Sqe>, taken: nat)
    requires slots != [] && Runs(Start(slots, pos, cqEntries), trace) && NeverOverfull(Start(slots, pos, cqEntries), trace)
    requires 0 < taken <= |q| < U32
    requires var s := After(Start(slots, pos, cqEntries), trace);
             s.user == Submitting(0) && s.slots != [] && s.sqTail - s.sqHead + |q| <= |s.slots| && DistinctTags(Waiting(s) + q)
    ensures var s := After(Start(slots, pos, cqEntries), trace); var t := PublishAll(s, q);
            && Enabled(t, Enter(Some(taken)))
            && var accepted := Apply(t, Enter(Some(taken))).h.accepted;
               && accepted == s.h.accepted + (Waiting(s) + q)[..taken]
               && (accepted == s.h.accepted + q[..taken] <==> s.sqHead == s.sqTail)
  {
    hide Runs, After, NeverOverfull;
    QueuedRun(Start(slots, pos, cqEntries), trace);
    TakesInOrder(After(Start(slots, pos, cqEntries), trace), q, taken);
  }

  lemma TakesInOrder(s: Sys, q: seq<Sqe>, taken: nat)
    requires s.slots != [] && Queued(s) && s.user == Submitting(0) && 0 < taken <= |q| < U32
    requires s.sqTail - s.sqHead + |q| <= |s.slots| && DistinctTags(Waiting(s) + q)
    ensures var t := PublishAll(s, q);
            && Enabled(t, Enter(Some(taken)))
            && var accepted := Apply(t, Enter(Some(taken))).h.accepted;
               && accepted == s.h.accepted + (Waiting(s) + q)[..taken]
               && (accepted == s.h.accepted + q[..taken] <==> s.sqHead == s.sqTail)
  {
    hide *;
    WaitingIsTheRest(s);
    CallTakes(s, q, taken);
    WaitingThenBatch(s, q, taken);
    OwnFirst(s.h.accepted, Waiting(s), q, taken);
  }

  /** A call's `enter` can take any number of entries up to the size of its batch. */
  lemma CallTakes(s: Sys, q: seq<Sqe>, taken: nat)
    requires s.user == Submitting(0) && s.slots != [] && s.sqHead <= s.sqTail && taken <= |q| < U32 && taken <= |s.slots| && q != []
    ensures var t := PublishAll(s, q);
            && Enabled(t, Enter(Some(taken)))
            && Apply(t, Enter(Some(taken))).h.accepted == s.h.accepted + ReadSlots(t.slots, t.sqHead, taken)
  {
    hide PublishAll, ReadSlots, Serials;
    Accepts(PublishAll(s, q), taken);
  }

  lemma WaitingIsTheRest(s: Sys)
    requires Queued(s)
    ensures |Waiting(s)| == s.sqTail - s.sqHead
  {
    hide Holds;
  }

  lemma WaitingThenBatch(s: Sys, q: seq<Sqe>, taken: nat)
    requires s.slots != [] && Queued(s) && s.user.Submitting? && s.sqTail - s.sqHead + |q| <= |s.slots| && taken <= |q|
    ensures var t := PublishAll(s, q); t.slots != [] && ReadSlots(t.slots, t.sqHead, taken) == (Waiting(s) + q)[..taken]
  {
    hide At, Holds;
    var t := PublishAll(s, q);
    QueuedBatch(s, q);
    hide PublishAll;
    assert t.h.published[|s.h.accepted|..] == Waiting(s) + q;
    PopMany(t.slots, t.sqHead, Waiting(s) + q, taken);
  }

  lemma OwnFirst(a: seq<Sqe>, w: seq<Sqe>, q: seq<Sqe>, taken: nat)
    requires 0 < taken <= |q| && DistinctTags(w + q)
    ensures a + (w + q)[..taken] == a + q[..taken] <==> w == []
  {
    CancelLeft(a, (w + q)[..taken], q[..taken]);
    if w == [] {
      assert w + q == q;
    } else {
      assert (w + q)[0] == w[0] && (w + q)[|w|] == q[0];
      assert (w + q)[..taken][0] == w[0] && q[..taken][0] == q[0];
    }
  }

  /** The entries in the ring that do not belong to the call in progress. */
  function Backlog(s: Sys): int {
    s.sqTail - s.sqHead - (if s.user.Submitting? then s.user.k else 0)
  }

  lemma BacklogStep(s: Sys, e: Step)
    requires Enabled(s, e)
    ensures Backlog(Apply(s, e)) >= Backlog(s)
  {
  }

  /** No call ever catches up with what an earlier one left in the ring: it never asks the kernel
      for more entries than it has published itself. */
  lemma {:induction false} BacklogNeverShrinks(s: Sys, trace: seq<Step>)
    requires Runs(s, trace)
    ensures Backlog(After(s, trace)) >= Backlog(s)
    decreases |trace|
  {
    if trace != [] {
      BacklogStep(s, trace[0]);
      hide Apply, Enabled, Backlog;
      BacklogNeverShrinks(Apply(s, trace[0]), trace[1..]);
    }
  }

  // ----- Runs that get there -----

  lemma {:induction false} RunsOn(s: Sys, trace: seq<Step>, e: Step)
    requires Runs(s, trace) && Enabled(After(s, trace), e)
    ensures Runs(s, trace + [e]) && After(s, trace + [e]) == Apply(After(s, trace), e)
    decreases |trace|
  {
    hide Apply, Enabled;
    if trace == [] {
      assert [e][1..] == [];
    } else {
      RunsOn(Apply(s, trace[0]), trace[1..], e);
      assert (trace + [e])[1..] == trace[1..] + [e];
    }
  }

  /** From the start, one entry is published and the kernel entered. */
  lemma OneEntry(slots: seq<Sqe>, pos: nat, cqEntries: Size, e: Sqe, taken: Option<nat>) returns (trace: seq<Step>)
    requires slots != [] && (taken.Some? ==> taken.value <= 1)
    ensures Runs(Start(slots, pos, cqEntries), trace)
    ensures var s := After(Start(slots, pos, cqEntries), trace); var m := slots[At(pos, |slots|) := e];
            && s.slots == m && s.sqTail == pos + 1 && s.user.Idle? && s.cq == [] && s.cqEntries == cqEntries && s.pool.None?
            && s.sqHead == pos + (if taken.Some? then taken.value else 0)
            && s.h.accepted == (if taken == Some(1) then [e] else []) && s.h.published == [e]
            && s.armed == (if taken == Some(1) then {0} else {})
            && s.inFlight == (if taken.Some? then 1 else 0) && s.h.short == (if taken == Some(0) then 1 else 0)
  {
    hide Runs, After, At;
    var s0 := Start(slots, pos, cqEntries);
    var s1 := Apply(s0, SubmitBegin);
    var s2 := Apply(s1, Publish(e));
    trace := [];
    Stay(s0);
    RunsOn(s0, [], SubmitBegin);
    RunsOn(s0, [] + [SubmitBegin], Publish(e));
    assert s2.user.k == 1;
    assert Enabled(s2, Enter(taken));
    RunsOn(s0, [] + [SubmitBegin] + [Publish(e)], Enter(taken));
    trace := [] + [SubmitBegin] + [Publish(e)] + [Enter(taken)];
    if taken == Some(1) {
      assert ReadSlots(s2.slots, pos, 1) == [e] by { assert pos + 0 == pos; }
      assert Serials(0, 1) == {0};
    } else if taken == Some(0) {
      assert ReadSlots(s2.slots, pos, 0) == [];
    }
  }

  lemma Stay(s: Sys)
    ensures Runs(s, []) && After(s, []) == s
  {
  }

  /** Some run counts an entry that the kernel has not taken. */
  lemma SomeRunComesUpShort(slots: seq<Sqe>, pos: nat, cqEntries: Size, e: Sqe) returns (trace: seq<Step>)
    requires slots != []
    ensures Runs(Start(slots, pos, cqEntries), trace)
    ensures var s := After(Start(slots, pos, cqEntries), trace); s.user.Idle? && s.armed == {} && s.cq == [] && s.inFlight == 1
  {
    trace := OneEntry(slots, pos, cqEntries, e, Some(0));
  }

  /** The entry of a failed call stays published; the next call's `enter` makes the kernel take it
      in place of the next call's own. */
  lemma FailedEntryRunsInstead(slots: seq<Sqe>, pos: nat, cqEntries: Size, a: Sqe, b: Sqe) returns (trace: seq<Step>)
    requires |slots| > 1
    ensures Runs(Start(slots, pos, cqEntries), trace)
    ensures var s := After(Start(slots, pos, cqEntries), trace);
            && s.user.Idle? && s.h.published == [a, b] && s.h.accepted == [a] && s.armed == {0}
            && s.inFlight == 1 && s.sqTail - s.sqHead == 1
  {
    hide Runs, After, At;
    var s0 := Start(slots, pos, cqEntries);
    var first := OneEntry(slots, pos, cqEntries, a, None);
    var s := After(s0, first);
    var s1 := Apply(s, SubmitBegin);
    var s2 := Apply(s1, Publish(b));
    RunsOn(s0, first, SubmitBegin);
    RunsOn(s0, first + [SubmitBegin], Publish(b));
    assert s2.user.k == 1;
    RunsOn(s0, first + [SubmitBegin] + [Publish(b)], Enter(Some(1)));
    trace := first + [SubmitBegin] + [Publish(b)] + [Enter(Some(1))];
    assert At(pos, |slots|) != At(pos + 1, |slots|) by { NextSlotDiffers(pos, |slots|); }
    assert ReadSlots(s2.slots, pos, 1) == [a] by { assert pos + 0 == pos; }
    assert Serials(0, 1) == {0};
  }

  lemma NextSlotDiffers(pos: nat, n: nat)
    requires n > 1
    ensures At(pos, n) != At(pos + 1, n)
  {
    RemaindersDiffer(pos, pos + 1, n);
  }

  /** For every ring size some run fills the completion ring: one multi-shot operation and nobody
      reaping is enough. */
  lemma SomeRunFillsTheRing(slots: seq<Sqe>, pos: nat, cqEntries: Size) returns (trace: seq<Step>)
    requires slots != []
    ensures Runs(Start(slots, pos, cqEntries), trace)
    ensures |After(Start(slots, pos, cqEntries), trace).cq| == cqEntries
  {
    trace := OneEntry(slots, pos, cqEntries, MultiAccept(3, 0, 0, 7), Some(1));
    trace := KeepPosting(Start(slots, pos, cqEntries), trace, cqEntries);
  }

  lemma {:induction false} KeepPosting(s: Sys, before: seq<Step>, count: nat) returns (trace: seq<Step>)
    requires Runs(s, before)
    requires var t := After(s, before);
             0 in t.armed && |t.h.accepted| > 0 && IsMultishot(t.h.accepted[0]) && count + |t.cq| <= t.cqEntries
    ensures Runs(s, trace) && |After(s, trace).cq| == |After(s, before).cq| + count
    decreases count
  {
    hide Runs, After, IsMultishot;
    trace := before;
    if count > 0 {
      var e := Post(0, 0, true, false);
      RunsOn(s, before, e);
      trace := KeepPosting(s, before + [e], count - 1);
    }
  }
}
