/** The completion protocol behind `TorusAsync`: any number of futures, one reaper thread and
    a backend, interleaved at the granularity of the registry's lock sections.  A run is a
    sequence of steps from the empty system; every theorem here is about all runs. */
module WakerProtocol {
  import opened Words

  /** A `TorusResult`: the raw 64-bit outcome together with the flow's user data. */
  datatype Completion = Completion(value: int, userData: u64)

  /** The waker a future hands over in one of its polls, so that "woken since that poll"
      can be asked of each poll separately. */
  datatype Waker = Waker(fut: nat, poll: nat)

  datatype Arm = InitArm | WaitingArm

  /** Where a future stands between two lock sections.  `Parked(arm)` means that its last
      poll returned `Pending` from that arm. */
  datatype Pc =
    | Init | Allocated | Submitted | Parked(arm: Arm) | Registered
    | Taken | WakerGone | Ready | Failed | Dropping | Dropped

  /** `serial` is the number of the allocation that produced `id`; `got` remembers the
      completion the future took and `submits` how often its flow reached the backend. */
  datatype Fut = Fut(op: nat, pc: Pc, id: Option<u64>, serial: nat, polls: nat, got: Option<Completion>, submits: nat)

  /** What the backend produced for a flow that reached it. */
  datatype Outcome = Outcome(op: nat, value: int)

  /** The registry (`nextId`, `wakers`, `results`), the futures, the operations in flight in
      the backend, its completion queue, and the reaper's local batch with the id whose wake
      half is still due. */
  datatype Sys = Sys(
    nextId: u64, wakers: map<u64, Waker>, results: map<u64, Completion>,
    futs: seq<Fut>, inKernel: map<u64, nat>, queue: seq<Completion>,
    batch: seq<Completion>, waking: Option<u64>, h: History)

  /** What happened so far: the number of allocations, who was given which id, what the backend
      produced, which wakers were woken, for which ids the wake half of `complete` found no
      waker, and which delivered results were thrown away by `unregister`. */
  datatype History = History(
    allocs: nat, owner: map<u64, nat>, produced: map<u64, Outcome>,
    woken: set<Waker>, unheard: set<u64>, discarded: set<u64>)

  /** `SubmitErr` is a submission that reports an error; with `left`, the backend has published
      the flow all the same, and will run it later. */
  datatype Step =
    | Create(op: nat)
    | Alloc(f: nat)
    | SubmitOk(f: nat)
    | SubmitErr(f: nat, left: bool)
    | RegisterInit(f: nat)
    | RegisterWait(f: nat)
    | Take(f: nat)
    | RemoveWaker(f: nat)
    | RemoveResult(f: nat)
    | DropBegin(f: nat)
    | DropEnd(f: nat)
    | Finish(id: u64, value: int)
    | Reap
    | Insert
    | Wake

  function Start(): Sys {
    Sys(1, map[], map[], [], map[], [], [], None, History(0, map[], map[], {}, {}, {}))
  }

  /** The `n`-th value handed out by `alloc_id`, whose counter starts at 1 and wraps. */
  function IdOf(n: nat): u64 {
    (1 + n) % U64
  }

  predicate Enabled(s: Sys, e: Step) {
    match e
    case Create(_) => true
    case Alloc(f) => f < |s.futs| && s.futs[f].pc == Init
    case SubmitOk(f) => f < |s.futs| && s.futs[f].pc == Allocated && s.futs[f].id.Some?
    case SubmitErr(f, _) => f < |s.futs| && s.futs[f].pc == Allocated && s.futs[f].id.Some?
    case RegisterInit(f) => f < |s.futs| && s.futs[f].pc == Submitted && s.futs[f].id.Some?
    case RegisterWait(f) => f < |s.futs| && s.futs[f].pc.Parked? && s.futs[f].id.Some?
    case Take(f) => f < |s.futs| && s.futs[f].pc == Registered && s.futs[f].id.Some?
    case RemoveWaker(f) => f < |s.futs| && s.futs[f].pc == Taken && s.futs[f].id.Some?
    case RemoveResult(f) => f < |s.futs| && s.futs[f].pc == WakerGone && s.futs[f].id.Some?
    case DropBegin(f) => f < |s.futs| && (s.futs[f].pc in {Init, Ready, Failed} || (s.futs[f].pc.Parked? && s.futs[f].id.Some?))
    case DropEnd(f) => f < |s.futs| && s.futs[f].pc == Dropping && s.futs[f].id.Some?
    case Finish(id, _) => id in s.inKernel
    case Reap => s.batch == [] && s.waking.None? && s.queue != []
    case Insert => s.batch != [] && s.waking.None?
    case Wake => s.waking.Some?
  }

  function Goto(s: Sys, f: nat, pc: Pc): seq<Fut>
    requires f < |s.futs|
  {
    s.futs[f := s.futs[f].(pc := pc)]
  }

  function Apply(s: Sys, e: Step): Sys
    requires Enabled(s, e)
  {
    match e
    case Create(op) =>
      s.(futs := s.futs + [Fut(op, Init, None, 0, 0, None, 0)])
    case Alloc(f) =>
      s.(nextId := (s.nextId + 1) % U64, h := s.h.(allocs := s.h.allocs + 1, owner := s.h.owner[s.nextId := f]),
         futs := s.futs[f := s.futs[f].(pc := Allocated, id := Some(s.nextId), serial := s.h.allocs, polls := s.futs[f].polls + 1)])
    case SubmitOk(f) =>
      var me := s.futs[f];
      s.(inKernel := s.inKernel[me.id.value := me.op],
         futs := s.futs[f := me.(pc := Submitted, submits := me.submits + 1)])
    case SubmitErr(f, left) =>
      var me := s.futs[f];
      if left then
        s.(inKernel := s.inKernel[me.id.value := me.op],
           futs := s.futs[f := me.(pc := Failed, submits := me.submits + 1)])
      else
        s.(futs := Goto(s, f, Failed))
    case RegisterInit(f) =>
      var me := s.futs[f];
      s.(wakers := s.wakers[me.id.value := Waker(f, me.polls)], futs := Goto(s, f, Parked(InitArm)))
    case RegisterWait(f) =>
      var me := s.futs[f];
      s.(wakers := s.wakers[me.id.value := Waker(f, me.polls + 1)],
         futs := s.futs[f := me.(pc := Registered, polls := me.polls + 1)])
    case Take(f) =>
      var me := s.futs[f];
      if me.id.value in s.results then
        s.(results := s.results - {me.id.value},
           futs := s.futs[f := me.(pc := Taken, got := Some(s.results[me.id.value]))])
      else
        s.(futs := Goto(s, f, Parked(WaitingArm)))
    case RemoveWaker(f) =>
      s.(wakers := s.wakers - {s.futs[f].id.value}, futs := Goto(s, f, WakerGone))
    case RemoveResult(f) =>
      Discard(s, s.futs[f].id.value).(futs := Goto(s, f, Ready))
    case DropBegin(f) =>
      if s.futs[f].pc.Parked? then
        s.(wakers := s.wakers - {s.futs[f].id.value}, futs := Goto(s, f, Dropping))
      else
        s.(futs := Goto(s, f, Dropped))
    case DropEnd(f) =>
      Discard(s, s.futs[f].id.value).(futs := Goto(s, f, Dropped))
    case Finish(id, value) =>
      s.(inKernel := s.inKernel - {id}, queue := s.queue + [Completion(value, id)],
         h := s.h.(produced := s.h.produced[id := Outcome(s.inKernel[id], value)]))
    case Reap =>
      s.(batch := s.queue, queue := [])
    case Insert =>
      var c := s.batch[0];
      s.(results := s.results[c.userData := c], batch := s.batch[1..], waking := Some(c.userData))
    case Wake =>
      var id := s.waking.value;
      if id in s.wakers then
        s.(wakers := s.wakers - {id}, h := s.h.(woken := s.h.woken + {s.wakers[id]}), waking := None)
      else
        s.(h := s.h.(unheard := s.h.unheard + {id}), waking := None)
  }

  /** The second lock section of `unregister`. */
  function Discard(s: Sys, id: u64): Sys {
    if id in s.results then s.(results := s.results - {id}, h := s.h.(discarded := s.h.discarded + {id})) else s
  }

  // ----- Runs -----

  ghost predicate Runs(s: Sys, trace: seq<Step>)
    decreases |trace|
  {
    trace == [] || (Enabled(s, trace[0]) && Runs(Apply(s, trace[0]), trace[1..]))
  }

  ghost function After(s: Sys, trace: seq<Step>): Sys
    requires Runs(s, trace)
    decreases |trace|
  {
    if trace == [] then s else After(Apply(s, trace[0]), trace[1..])
  }

  /** Who is executing: the reaper thread, or the task that owns one of the futures. */
  datatype Who = TheReaper | Task(f: nat)

  /** The future whose poll or drop a step belongs to. */
  function Actor(e: Step): Option<nat> {
    match e
    case Create(_) => None
    case Finish(_, _) => None
    case Reap => None
    case Insert => None
    case Wake => None
    case _ => Some(e.f)
  }

  predicate Foreign(e: Step, who: Who) {
    match who
    case TheReaper => !(e.Reap? || e.Insert? || e.Wake?)
    case Task(f) => Actor(e) != Some(f)
  }

  /** The steps of a run that `who` performed. */
  function By(trace: seq<Step>, who: Who): seq<Step> {
    if trace == [] then [] else (if Foreign(trace[0], who) then [] else [trace[0]]) + By(trace[1..], who)
  }

  lemma {:induction false} ByConcat(a: seq<Step>, b: seq<Step>, who: Who)
    ensures By(a + b, who) == By(a, who) + By(b, who)
  {
    if a == [] {
      assert a + b == b;
    } else {
      ByConcat(a[1..], b, who);
      assert (a + b)[1..] == a[1..] + b;
    }
  }

  // ----- One flow's share of the system -----

  /** Everything the system holds about one user-data value: its future, the waker of that
      future's latest poll (`mine`), and where the flow, its completion and its wake-up are. */
  datatype Flow = Flow(
    op: nat, pc: Pc, submits: nat, got: Option<Completion>, mine: Waker,
    kernel: Option<nat>, queued: bool, batched: bool, result: Option<Completion>,
    waker: Option<Waker>, waking: bool,
    produced: Option<Outcome>, woken: bool, unheard: bool, discarded: bool)

  function Ids(q: seq<Completion>): set<u64> {
    set c | c in q :: c.userData
  }

  function Get<K, V>(m: map<K, V>, k: K): Option<V> {
    if k in m then Some(m[k]) else None
  }

  predicate Has(s: Sys, id: u64) {
    id in s.h.owner && s.h.owner[id] < |s.futs| && s.futs[s.h.owner[id]].id == Some(id)
  }

  function FlowOf(s: Sys, id: u64): Flow
    requires Has(s, id)
  {
    var f := s.h.owner[id];
    var me := s.futs[f];
    var mine := Waker(f, me.polls);
    Flow(me.op, me.pc, me.submits, me.got, mine,
         Get(s.inKernel, id), id in Ids(s.queue), id in Ids(s.batch), Get(s.results, id),
         Get(s.wakers, id), s.waking == Some(id),
         Get(s.h.produced, id), mine in s.h.woken, id in s.h.unheard, id in s.h.discarded)
  }

  /** What a step of the flow's own future, or of the backend and reaper on its behalf, does to it. */
  function FlowApply(v: Flow, e: Step, id: u64): Flow {
    match e
    case Create(_) => v
    case Alloc(_) => v
    case SubmitOk(_) => v.(pc := Submitted, submits := v.submits + 1, kernel := Some(v.op))
    case SubmitErr(_, left) =>
      if left then v.(pc := Failed, submits := v.submits + 1, kernel := Some(v.op)) else v.(pc := Failed)
    case RegisterInit(_) => v.(pc := Parked(InitArm), waker := Some(v.mine))
    case RegisterWait(_) =>
      var next := Waker(v.mine.fut, v.mine.poll + 1);
      v.(pc := Registered, mine := next, waker := Some(next), woken := false)
    case Take(_) =>
      if v.result.Some? then v.(pc := Taken, got := v.result, result := None) else v.(pc := Parked(WaitingArm))
    case RemoveWaker(_) => v.(pc := WakerGone, waker := None)
    case RemoveResult(_) => v.(pc := Ready, result := None, discarded := v.discarded || v.result.Some?)
    case DropBegin(_) => if v.pc.Parked? then v.(pc := Dropping, waker := None) else v.(pc := Dropped)
    case DropEnd(_) => v.(pc := Dropped, result := None, discarded := v.discarded || v.result.Some?)
    case Finish(_, value) =>
      v.(kernel := None, queued := true, produced := if v.kernel.Some? then Some(Outcome(v.kernel.value, value)) else None)
    case Reap => v.(queued := false, batched := v.queued)
    case Insert =>
      v.(batched := false, waking := true,
         result := if v.produced.Some? then Some(Completion(v.produced.value.value, id)) else None)
    case Wake =>
      if v.waker.Some? then v.(waker := None, waking := false, woken := v.woken || v.waker == Some(v.mine))
      else v.(waking := false, unheard := true)
  }

  /** The user-data value a step is about, if it is about exactly one. */
  function Subject(s: Sys, e: Step): Option<u64>
    requires Enabled(s, e)
  {
    match e
    case Create(_) => None
    case Reap => None
    case Finish(id, _) => Some(id)
    case Insert => Some(s.batch[0].userData)
    case Wake => s.waking
    case _ => s.futs[e.f].id
  }

  ghost predicate NoDup(q: seq<Completion>) {
    forall i, j :: 0 <= i < j < |q| ==> q[i].userData != q[j].userData
  }

  ghost predicate Faithful(s: Sys, q: seq<Completion>) {
    forall c :: c in q ==> c.userData in s.h.produced && s.h.produced[c.userData].value == c.value
  }

  ghost predicate HoldsId(s: Sys, f: nat)
    requires f < |s.futs|
  {
    var me := s.futs[f];
    && (me.pc == Init ==> me.id.None?)
    && (me.pc !in {Init, Dropped} ==> me.id.Some?)
    && (me.id.Some? ==> me.id.value in s.h.owner && s.h.owner[me.id.value] == f
                        && me.serial < s.h.allocs && me.id.value == IdOf(me.serial))
    && (me.id.None? ==> me.got.None? && me.submits == 0)
  }

  lemma IdsOfTail(q: seq<Completion>)
    requires q != [] && NoDup(q)
    ensures Ids(q[1..]) == Ids(q) - {q[0].userData} && NoDup(q[1..]) && q[0].userData in Ids(q)
  {
    assert q == [q[0]] + q[1..];
    forall c | c in q[1..] ensures c.userData != q[0].userData {
      var i :| 0 <= i < |q[1..]| && q[1..][i] == c;
    }
  }

  lemma IdsOfAppend(q: seq<Completion>, c: Completion)
    requires NoDup(q) && c.userData !in Ids(q)
    ensures Ids(q + [c]) == Ids(q) + {c.userData} && NoDup(q + [c])
  {
    var r := q + [c];
    assert forall d :: d in q ==> d in r;
    assert c in r by { assert r[|q|] == c; }
  }

  // ----- The invariant -----

  function B(b: bool): nat {
    if b then 1 else 0
  }

  /** In how many places the flow is: still in the backend, completed but not reaped, reaped
      but not dispatched, waiting in `results`, taken by its future, or thrown away by its
      future's drop. */
  function Places(v: Flow): nat {
    B(v.kernel.Some?) + B(v.queued) + B(v.batched) + B(v.result.Some?) + B(v.got.Some?) + B(v.discarded)
  }

  ghost predicate Located(v: Flow, id: u64) {
    && v.submits <= 1
    && (v.pc == Allocated ==> v.submits == 0)
    && (v.pc !in {Init, Allocated, Failed, Dropped} ==> v.submits == 1)
    && Places(v) == v.submits
    && (v.produced.Some? <==> v.submits == 1 && v.kernel.None?)
    && (v.submits == 0 ==> v.waker.None?)
    && (v.waking || v.unheard ==> v.produced.Some? && !v.queued && !v.batched)
    && !(v.waking && v.unheard)
    && (v.got.Some? <==> v.pc in {Taken, WakerGone, Ready} || (v.pc == Dropped && v.got.Some?))
    && (v.discarded ==> v.pc == Dropped)
    && (v.kernel.Some? ==> v.kernel.value == v.op)
    && (v.produced.Some? ==> v.produced.value.op == v.op)
    && (v.result.Some? ==> Own(v, v.result.value, id))
    && (v.got.Some? ==> Own(v, v.got.value, id))
  }

  /** `c` is the completion the backend produced for this very flow. */
  predicate Own(v: Flow, c: Completion, id: u64) {
    v.produced.Some? && c == Completion(v.produced.value.value, id)
  }

  /** Who is registered, and who has been or will be woken. */
  ghost predicate Heard(v: Flow) {
    && (v.waker.Some? ==> v.waker == Some(v.mine) && !v.woken && (v.pc in {Registered, Taken} || v.pc.Parked?))
    && (v.pc in {Allocated, Submitted} ==> !v.woken)
    && (v.pc == Submitted && v.result.Some? && !v.waking ==> v.unheard)
    && (v.pc == Registered || v.pc.Parked? ==> (v.result.None? || v.waking ==> v.waker.Some?))
    && (v.pc.Parked? ==> (v.waker.Some? <==> !v.woken))
    && (v.pc == Parked(WaitingArm) ==> !v.unheard)
    && (v.pc == Parked(InitArm) && v.result.Some? && !v.waking ==> (v.unheard <==> !v.woken))
    && (v.pc == Parked(WaitingArm) && v.result.Some? && !v.waking ==> v.woken)
  }

  ghost predicate FlowInv(v: Flow, id: u64) {
    Located(v, id) && Heard(v)
  }

  predicate FlowEnabled(v: Flow, e: Step) {
    match e
    case Create(_) => true
    case Alloc(_) => false
    case SubmitOk(_) => v.pc == Allocated
    case SubmitErr(_, _) => v.pc == Allocated
    case RegisterInit(_) => v.pc == Submitted
    case RegisterWait(_) => v.pc.Parked?
    case Take(_) => v.pc == Registered
    case RemoveWaker(_) => v.pc == Taken
    case RemoveResult(_) => v.pc == WakerGone
    case DropBegin(_) => v.pc in {Ready, Failed} || v.pc.Parked?
    case DropEnd(_) => v.pc == Dropping
    case Finish(_, _) => v.kernel.Some?
    case Reap => !v.batched && !v.waking
    case Insert => v.batched && !v.waking
    case Wake => v.waking
  }

  lemma FlowStepKeepsInv(v: Flow, e: Step, id: u64)
    requires FlowInv(v, id) && FlowEnabled(v, e)
    ensures FlowInv(FlowApply(v, e, id), id)
  {
  }

  ghost predicate Owned(s: Sys) {
    && s.nextId == IdOf(s.h.allocs)
    && (forall f :: 0 <= f < |s.futs| ==> HoldsId(s, f))
    && (forall id :: id in s.h.owner ==> Has(s, id))
  }

  ghost predicate Known(s: Sys) {
    && s.inKernel.Keys <= s.h.owner.Keys && Ids(s.queue) <= s.h.owner.Keys && Ids(s.batch) <= s.h.owner.Keys
    && s.results.Keys <= s.h.owner.Keys && s.wakers.Keys <= s.h.owner.Keys && s.h.produced.Keys <= s.h.owner.Keys
    && s.h.unheard <= s.h.owner.Keys && s.h.discarded <= s.h.owner.Keys
    && (s.waking.Some? ==> s.waking.value in s.h.owner)
  }

  ghost predicate Bounded(s: Sys) {
    forall w :: w in s.h.woken ==> w.fut < |s.futs| && w.poll <= s.futs[w.fut].polls
  }

  ghost predicate Inv(s: Sys) {
    && Owned(s) && Known(s) && Bounded(s)
    && NoDup(s.queue) && NoDup(s.batch) && Faithful(s, s.queue) && Faithful(s, s.batch)
    && (forall id :: id in s.h.owner ==> FlowInv(FlowOf(s, id), id))
  }

  lemma StartIsGood()
    ensures Inv(Start())
  {
  }

  // ----- Every step keeps it -----

  lemma IdsDistinct(a: nat, b: nat)
    requires a < b
    ensures IdOf(a) == IdOf(b) <==> (b - a) % U64 == 0
  {
  }

  /** Wake-ups of other flows go to other futures' wakers. */
  ghost predicate Apart(s: Sys, e: Step, id: u64)
    requires Enabled(s, e) && Has(s, id)
  {
    && !e.Alloc? && !e.Reap?
    && Subject(s, e) != Some(id)
    && (Actor(e).Some? ==> e.f != s.h.owner[id])
    && (e.Insert? ==> NoDup(s.batch))
    && (e.Finish? ==> e.id !in Ids(s.queue) && NoDup(s.queue))
    && (e.Wake? && s.waking.value in s.wakers ==> s.wakers[s.waking.value].fut != s.h.owner[id])
  }

  lemma OtherByPoll(s: Sys, e: Step, id: u64)
    requires Enabled(s, e) && Has(s, id) && Apart(s, e, id)
    requires e.SubmitOk? || e.SubmitErr? || e.RegisterInit? || e.RegisterWait? || e.Take?
    ensures Has(Apply(s, e), id) && FlowOf(Apply(s, e), id) == FlowOf(s, id)
  {
  }

  lemma OtherByUnregister(s: Sys, e: Step, id: u64)
    requires Enabled(s, e) && Has(s, id) && Apart(s, e, id)
    requires e.RemoveWaker? || e.RemoveResult? || e.DropBegin? || e.DropEnd?
    ensures Has(Apply(s, e), id) && FlowOf(Apply(s, e), id) == FlowOf(s, id)
  {
  }

  lemma OtherByReaper(s: Sys, e: Step, id: u64)
    requires Enabled(s, e) && Has(s, id) && Apart(s, e, id) && Actor(e).None?
    ensures Has(Apply(s, e), id) && FlowOf(Apply(s, e), id) == FlowOf(s, id)
  {
    if e.Insert? { IdsOfTail(s.batch); }
    if e.Finish? { IdsOfAppend(s.queue, Completion(e.value, e.id)); }
  }

  lemma OwnByPoll(s: Sys, e: Step, id: u64)
    requires Enabled(s, e) && Has(s, id) && Actor(e) == Some(s.h.owner[id])
    requires e.SubmitOk? || e.SubmitErr? || e.RegisterInit? || e.RegisterWait? || e.Take?
    requires Bounded(s)
    ensures Has(Apply(s, e), id) && FlowEnabled(FlowOf(s, id), e) && FlowOf(Apply(s, e), id) == FlowApply(FlowOf(s, id), e, id)
  {
    if e.SubmitErr? {
      OwnByRefusal(s, e, id);
      hide Apply, FlowApply;
    }
  }

  lemma OwnByRefusal(s: Sys, e: Step, id: u64)
    requires Enabled(s, e) && Has(s, id) && Actor(e) == Some(s.h.owner[id]) && e.SubmitErr?
    ensures Has(Apply(s, e), id) && FlowEnabled(FlowOf(s, id), e) && FlowOf(Apply(s, e), id) == FlowApply(FlowOf(s, id), e, id)
  {
  }

  lemma OwnByUnregister(s: Sys, e: Step, id: u64)
    requires Enabled(s, e) && Has(s, id) && Actor(e) == Some(s.h.owner[id])
    requires e.RemoveWaker? || e.RemoveResult? || e.DropBegin? || e.DropEnd?
    requires s.futs[s.h.owner[id]].pc != Init
    ensures Has(Apply(s, e), id) && FlowEnabled(FlowOf(s, id), e) && FlowOf(Apply(s, e), id) == FlowApply(FlowOf(s, id), e, id)
  {
  }

  lemma OwnByReaper(s: Sys, e: Step, id: u64)
    requires Enabled(s, e) && Has(s, id) && Subject(s, e) == Some(id) && Actor(e).None?
    requires NoDup(s.queue) && NoDup(s.batch) && Faithful(s, s.batch) && FlowInv(FlowOf(s, id), id)
    ensures Has(Apply(s, e), id) && FlowEnabled(FlowOf(s, id), e) && FlowOf(Apply(s, e), id) == FlowApply(FlowOf(s, id), e, id)
  {
    if e.Insert? { IdsOfTail(s.batch); }
    if e.Finish? { IdsOfAppend(s.queue, Completion(e.value, e.id)); }
  }

  lemma AllByReap(s: Sys, id: u64)
    requires Enabled(s, Reap) && Has(s, id)
    ensures Has(Apply(s, Reap), id) && FlowEnabled(FlowOf(s, id), Reap) && FlowOf(Apply(s, Reap), id) == FlowApply(FlowOf(s, id), Reap, id)
  {
  }

  lemma FreshId(s: Sys)
    requires Owned(s) && s.h.allocs < U64
    ensures s.nextId !in s.h.owner
  {
    if s.nextId in s.h.owner {
      var g := s.h.owner[s.nextId];
      assert HoldsId(s, g);
      IdsDistinct(s.futs[g].serial, s.h.allocs);
    }
  }

  /** The id handed out by an allocation starts with nothing known about it. */
  lemma NewFlow(s: Sys, f: nat)
    requires Inv(s) && Enabled(s, Alloc(f)) && Apply(s, Alloc(f)).h.allocs <= U64
    ensures Has(Apply(s, Alloc(f)), s.nextId) && FlowInv(FlowOf(Apply(s, Alloc(f)), s.nextId), s.nextId)
  {
    FreshId(s);
    assert HoldsId(s, f);
  }

  lemma OldFlowAtAlloc(s: Sys, f: nat, id: u64)
    requires Owned(s) && Enabled(s, Alloc(f)) && Apply(s, Alloc(f)).h.allocs <= U64 && id in s.h.owner
    ensures Has(Apply(s, Alloc(f)), id) && FlowOf(Apply(s, Alloc(f)), id) == FlowOf(s, id)
  {
    FreshId(s);
    assert HoldsId(s, f);
  }

  predicate IsPoll(e: Step) {
    e.SubmitOk? || e.SubmitErr? || e.RegisterInit? || e.RegisterWait? || e.Take?
  }

  /** The steps that act on the flow: its own future's, the backend's and reaper's on its behalf,
      and a reap, which acts on all. */
  predicate Concerns(s: Sys, e: Step, id: u64)
    requires Enabled(s, e)
  {
    e.Reap? || (!e.Alloc? && Subject(s, e) == Some(id))
  }

  lemma OwnFlowMoves(s: Sys, e: Step, id: u64)
    requires Enabled(s, e) && Has(s, id) && FlowInv(FlowOf(s, id), id)
    requires Bounded(s) && NoDup(s.queue) && NoDup(s.batch) && Faithful(s, s.batch)
    requires Subject(s, e) == Some(id) && !e.Alloc?
    requires Actor(e).Some? ==> e.f == s.h.owner[id] && s.futs[e.f].pc != Init
    ensures Has(Apply(s, e), id) && FlowEnabled(FlowOf(s, id), e) && FlowOf(Apply(s, e), id) == FlowApply(FlowOf(s, id), e, id)
  {
    if IsPoll(e) {
      OwnByPoll(s, e, id);
    } else if Actor(e).Some? {
      OwnByUnregister(s, e, id);
    } else {
      OwnByReaper(s, e, id);
    }
  }

  lemma OtherFlowStays(s: Sys, e: Step, id: u64)
    requires Enabled(s, e) && Has(s, id) && Apart(s, e, id)
    ensures Has(Apply(s, e), id) && FlowOf(Apply(s, e), id) == FlowOf(s, id)
  {
    if IsPoll(e) {
      OtherByPoll(s, e, id);
    } else if Actor(e).Some? {
      OtherByUnregister(s, e, id);
    } else {
      OtherByReaper(s, e, id);
    }
  }

  /** What any step does to any flow. */
  lemma FlowMoves(s: Sys, e: Step, id: u64)
    requires Inv(s) && Enabled(s, e) && Apply(s, e).h.allocs <= U64 && id in s.h.owner
    ensures Has(s, id) && Has(Apply(s, e), id)
    ensures Concerns(s, e, id) ==>
              FlowEnabled(FlowOf(s, id), e) && FlowOf(Apply(s, e), id) == FlowApply(FlowOf(s, id), e, id)
    ensures !Concerns(s, e, id) ==> FlowOf(Apply(s, e), id) == FlowOf(s, id)
    ensures Concerns(s, e, id) && Actor(e).Some? ==> e.f == s.h.owner[id]
  {
    hide Apply, FlowOf, FlowApply, FlowEnabled, FlowInv;
    assert HoldsId(s, s.h.owner[id]) && FlowInv(FlowOf(s, id), id);
    if e.Alloc? {
      OldFlowAtAlloc(s, e.f, id);
    } else if e.Reap? {
      AllByReap(s, id);
    } else {
      if Actor(e).Some? { assert HoldsId(s, e.f); }
      if Subject(s, e) == Some(id) {
        OwnFlowMoves(s, e, id);
      } else {
        IsApart(s, e, id);
        OtherFlowStays(s, e, id);
      }
    }
  }

  lemma FlowKept(s: Sys, e: Step, id: u64)
    requires Inv(s) && Enabled(s, e) && Apply(s, e).h.allocs <= U64 && id in s.h.owner
    ensures Has(Apply(s, e), id) && FlowInv(FlowOf(Apply(s, e), id), id)
  {
    hide Apply, Enabled, FlowInv, FlowOf;
    FlowMoves(s, e, id);
    assert FlowInv(FlowOf(s, id), id);
    if Concerns(s, e, id) {
      FlowStepKeepsInv(FlowOf(s, id), e, id);
    }
  }

  lemma IsApart(s: Sys, e: Step, id: u64)
    requires Inv(s) && Enabled(s, e) && id in s.h.owner && !e.Alloc? && !e.Reap? && Subject(s, e) != Some(id)
    ensures Apart(s, e, id)
  {
    assert HoldsId(s, s.h.owner[id]);
    if e.Finish? { assert FlowInv(FlowOf(s, e.id), e.id); }
    if e.Wake? && s.waking.value in s.wakers {
      var w := s.waking.value;
      assert FlowInv(FlowOf(s, w), w);
      assert HoldsId(s, s.h.owner[w]);
    }
  }

  lemma FutStep(s: Sys, e: Step, f: nat)
    requires Enabled(s, e) && f < |Apply(s, e).futs|
    requires f < |s.futs| ==> HoldsId(s, f)
    requires e.Alloc? ==> s.nextId !in s.h.owner && s.nextId == IdOf(s.h.allocs)
    requires Actor(e).Some? ==> HoldsId(s, e.f)
    ensures HoldsId(Apply(s, e), f)
  {
    match e
    case SubmitErr(_, _) =>
      FutRefused(s, e, f);
      hide Apply;
    case Alloc(_) =>
    case Take(_) =>
    case SubmitOk(_) =>
    case Create(_) =>
    case RegisterInit(_) =>
    case RegisterWait(_) =>
    case RemoveWaker(_) =>
    case RemoveResult(_) =>
    case DropBegin(_) =>
    case DropEnd(_) =>
    case _ =>
  }

  lemma FutRefused(s: Sys, e: Step, f: nat)
    requires Enabled(s, e) && e.SubmitErr? && f < |s.futs| && HoldsId(s, f)
    ensures HoldsId(Apply(s, e), f)
  {
  }

  lemma OwnedStep(s: Sys, e: Step)
    requires Owned(s) && Enabled(s, e) && Apply(s, e).h.allocs <= U64
    ensures Owned(Apply(s, e))
  {
    var t := Apply(s, e);
    if e.Alloc? { FreshId(s); }
    if Actor(e).Some? { assert HoldsId(s, e.f); }
    forall f | 0 <= f < |t.futs| ensures HoldsId(t, f) {
      FutStep(s, e, f);
    }
    IdsKeepOwners(s, e);
  }

  lemma IdsKeepOwners(s: Sys, e: Step)
    requires Enabled(s, e) && (Actor(e).Some? ==> HoldsId(s, e.f))
    requires e.Alloc? ==> s.nextId !in s.h.owner
    requires forall id :: id in s.h.owner ==> Has(s, id)
    ensures forall id :: id in Apply(s, e).h.owner ==> Has(Apply(s, e), id)
  {
    forall id | id in Apply(s, e).h.owner ensures Has(Apply(s, e), id) {
      if id in s.h.owner { assert Has(s, id); }
    }
  }

  lemma QueueStep(s: Sys, e: Step)
    requires Enabled(s, e) && NoDup(s.queue) && NoDup(s.batch) && Faithful(s, s.queue) && Faithful(s, s.batch)
    requires e.Finish? ==> e.id !in Ids(s.queue) && e.id !in s.h.produced
    ensures var t := Apply(s, e); NoDup(t.queue) && NoDup(t.batch) && Faithful(t, t.queue) && Faithful(t, t.batch)
    ensures var t := Apply(s, e); Ids(t.queue) + Ids(t.batch) <= Ids(s.queue) + Ids(s.batch) + (if e.Finish? then {e.id} else {})
  {
    if e.Finish? { IdsOfAppend(s.queue, Completion(e.value, e.id)); }
    if e.Insert? { IdsOfTail(s.batch); }
  }

  lemma KnownByFuture(s: Sys, e: Step)
    requires Known(s) && Enabled(s, e) && Actor(e).Some? && HoldsId(s, e.f)
    ensures Known(Apply(s, e))
  {
    var t := Apply(s, e);
    assert s.h.owner.Keys <= t.h.owner.Keys && t.queue == s.queue && t.batch == s.batch;
  }

  lemma KnownByReaper(s: Sys, e: Step)
    requires Known(s) && Enabled(s, e) && Actor(e).None?
    requires var t := Apply(s, e); Ids(t.queue) + Ids(t.batch) <= Ids(s.queue) + Ids(s.batch) + (if e.Finish? then {e.id} else {})
    ensures Known(Apply(s, e))
  {
    match e
    case Create(_) =>
    case Insert => assert s.batch[0].userData in Ids(s.batch);
    case Finish(_, _) =>
    case Reap =>
    case Wake =>
  }

  lemma BoundedStep(s: Sys, e: Step)
    requires Bounded(s) && Enabled(s, e)
    requires e.Wake? && s.waking.value in s.wakers ==>
               var w := s.wakers[s.waking.value]; w.fut < |s.futs| && w.poll <= s.futs[w.fut].polls
    ensures Bounded(Apply(s, e))
  {
    var t := Apply(s, e);
    assert forall f :: 0 <= f < |s.futs| ==> s.futs[f].polls <= t.futs[f].polls;
  }

  lemma StepKeepsInv(s: Sys, e: Step)
    requires Inv(s) && Enabled(s, e) && Apply(s, e).h.allocs <= U64
    ensures Inv(Apply(s, e))
  {
    RestKept(s, e);
    FlowsKept(s, e);
  }

  lemma OwnerStep(s: Sys, e: Step)
    requires Enabled(s, e)
    ensures Apply(s, e).h.owner == if e.Alloc? then s.h.owner[s.nextId := e.f] else s.h.owner
  {
  }

  lemma FlowsKept(s: Sys, e: Step)
    requires Inv(s) && Enabled(s, e) && Apply(s, e).h.allocs <= U64
    ensures forall id :: id in Apply(s, e).h.owner ==> Has(Apply(s, e), id) && FlowInv(FlowOf(Apply(s, e), id), id)
  {
    hide Apply, Enabled, FlowInv;
    OwnerStep(s, e);
    forall id | id in Apply(s, e).h.owner ensures Has(Apply(s, e), id) && FlowInv(FlowOf(Apply(s, e), id), id) {
      if id in s.h.owner {
        FlowKept(s, e, id);
      } else {
        NewFlow(s, e.f);
      }
    }
  }

  lemma RestKept(s: Sys, e: Step)
    requires Inv(s) && Enabled(s, e) && Apply(s, e).h.allocs <= U64
    ensures var t := Apply(s, e);
            && Owned(t) && Known(t) && Bounded(t)
            && NoDup(t.queue) && NoDup(t.batch) && Faithful(t, t.queue) && Faithful(t, t.batch)
  {
    hide Apply;
    if e.Finish? { assert FlowInv(FlowOf(s, e.id), e.id); }
    if Actor(e).Some? { assert HoldsId(s, e.f); }
    if e.Wake? && s.waking.value in s.wakers { assert FlowInv(FlowOf(s, s.waking.value), s.waking.value); }
    OwnedStep(s, e);
    QueueStep(s, e);
    if Actor(e).Some? { KnownByFuture(s, e); } else { KnownByReaper(s, e); }
    BoundedStep(s, e);
  }
}
