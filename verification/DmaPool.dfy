/** The lock-free DMA buffer pool: slots are claimed by compare-and-swap on a flag each, and the
    peak of the in-flight counter is kept by a compare-and-swap retry loop.  Any number of
    allocations, handles and drops interleave at the granularity of single atomic operations. */
module DmaPool {
  import opened Words
  import opened Counting

  type Alignment = n: nat | n > 0 witness 1

  /** The life of one call to `alloc` or `alloc_aligned` and of the handle it returns.  `Reject`
      has claimed a slot only to find it misaligned; `Acquired` owns a slot that is not counted
      yet; `Counted` has incremented the in-flight counter to `current` and not looked at the
      peak; `Loop` is in the peak loop; `Released` has cleared the flag and is still counted. */
  datatype Actor =
    | Scan(i: nat, align: Option<Alignment>)
    | Reject(i: nat, align: Option<Alignment>)
    | Acquired(i: nat)
    | Counted(i: nat, current: u32)
    | Loop(i: nat, current: u32, seen: u32)
    | Holding(i: nat)
    | Released
    | Gone

  predicate Owns(a: Actor) {
    !a.Scan? && !a.Released? && !a.Gone?
  }

  predicate InFlight(a: Actor) {
    a.Counted? || a.Loop? || a.Holding? || a.Released?
  }

  predicate IsReleased(a: Actor) {
    a.Released?
  }

  predicate Racing(a: Actor) {
    a.Counted? || a.Loop?
  }

  /** `threads` bounds how many drops can be in progress at once. */
  datatype Pool = Pool(
    base: nat, bufSize: nat, threads: nat, flags: seq<bool>, inFlight: u32, peak: u32,
    actors: seq<Actor>, h: History)

  /** Who owns which slot, the greatest value the in-flight counter ever had, and which
      allocation raised it there. */
  datatype History = History(owner: map<nat, nat>, top: u32, leader: nat)

  datatype Step =
    | Begin(align: Option<Alignment>)
    | Cas(a: nat)
    | Unset(a: nat)
    | GiveUp(a: nat)
    | AddInFlight(a: nat)
    | LoadPeak(a: nat)
    | CasPeak(a: nat)
    | Drop(a: nat)
    | SubInFlight(a: nat)

  /** The address of slot `i`. */
  function Addr(s: Pool, i: nat): nat {
    s.base + i * s.bufSize
  }

  function Mark(actors: seq<Actor>, p: Actor -> bool): seq<bool> {
    seq(|actors|, i requires 0 <= i < |actors| => p(actors[i]))
  }

  function Size(actors: seq<Actor>, p: Actor -> bool): nat {
    Count(Mark(actors, p))
  }

  predicate Enabled(s: Pool, e: Step) {
    match e
    case Begin(_) => true
    case Cas(a) => a < |s.actors| && s.actors[a].Scan? && s.actors[a].i < |s.flags|
    case Unset(a) => a < |s.actors| && s.actors[a].Reject? && s.actors[a].i < |s.flags|
    case GiveUp(a) => a < |s.actors| && s.actors[a].Scan? && s.actors[a].i >= |s.flags|
    case AddInFlight(a) => a < |s.actors| && s.actors[a].Acquired?
    case LoadPeak(a) => a < |s.actors| && s.actors[a].Counted?
    case CasPeak(a) => a < |s.actors| && s.actors[a].Loop?
    case Drop(a) => a < |s.actors| && s.actors[a].Holding? && s.actors[a].i < |s.flags| && Size(s.actors, IsReleased) < s.threads
    case SubInFlight(a) => a < |s.actors| && s.actors[a].Released?
  }

  /** A step of anybody but allocation `me`. */
  predicate Foreign(e: Step, me: nat) {
    match e
    case Begin(_) => true
    case _ => e.a != me
  }

  function Put(s: Pool, a: nat, x: Actor): Pool
    requires a < |s.actors|
  {
    s.(actors := s.actors[a := x])
  }

  function Clear(s: Pool, i: nat): Pool
    requires i < |s.flags|
  {
    s.(flags := s.flags[i := false], h := s.h.(owner := s.h.owner - {i}))
  }

  function Apply(s: Pool, e: Step): Pool
    requires Enabled(s, e)
  {
    match e
    case Begin(align) => s.(actors := s.actors + [Scan(0, align)])
    case Cas(a) =>
      var me := s.actors[a];
      if s.flags[me.i] then Put(s, a, Scan(me.i + 1, me.align))
      else
        var aligned := me.align.None? || Addr(s, me.i) % me.align.value == 0;
        Put(s, a, if aligned then Acquired(me.i) else Reject(me.i, me.align))
        .(flags := s.flags[me.i := true], h := s.h.(owner := s.h.owner[me.i := a]))
    case Unset(a) => Put(Clear(s, s.actors[a].i), a, Scan(s.actors[a].i + 1, s.actors[a].align))
    case GiveUp(a) => Put(s, a, Gone)
    case AddInFlight(a) =>
      var current := Wrap32(s.inFlight + 1);
      Put(s, a, Counted(s.actors[a].i, current))
      .(inFlight := current, h := if current > s.h.top then s.h.(top := current, leader := a) else s.h)
    case LoadPeak(a) => Put(s, a, Loop(s.actors[a].i, s.actors[a].current, s.peak))
    case CasPeak(a) =>
      var me := s.actors[a];
      if me.current <= me.seen then Put(s, a, Holding(me.i))
      else if s.peak == me.seen then Put(s, a, Holding(me.i)).(peak := me.current)
      else Put(s, a, Loop(me.i, me.current, s.peak))
    case Drop(a) => Put(Clear(s, s.actors[a].i), a, Released)
    case SubInFlight(a) => Put(s, a, Gone).(inFlight := Sub32(s.inFlight, 1))
  }

  ghost predicate Runs(s: Pool, trace: seq<Step>)
    decreases |trace|
  {
    trace == [] || (Enabled(s, trace[0]) && Runs(Apply(s, trace[0]), trace[1..]))
  }

  ghost function After(s: Pool, trace: seq<Step>): Pool
    requires Runs(s, trace)
    decreases |trace|
  {
    if trace == [] then s else After(Apply(s, trace[0]), trace[1..])
  }

  function Start(base: nat, bufSize: nat, capacity: nat, threads: nat): Pool {
    Pool(base, bufSize, threads, seq(capacity, _ => false), 0, 0, [], History(map[], 0, 0))
  }

  // ----- The invariant -----

  /** A flag is set exactly when some allocation owns the slot, and ownership is a function. */
  ghost predicate Exclusive(s: Pool) {
    OneOwner(s.flags, s.h.owner, s.actors)
  }

  ghost predicate OneOwner(flags: seq<bool>, owner: map<nat, nat>, actors: seq<Actor>) {
    && (forall i :: 0 <= i < |flags| ==> (flags[i] <==> i in owner))
    && (forall i :: i in owner ==> i < |flags| && owner[i] < |actors|)
    && (forall i :: i in owner ==> Owns(actors[owner[i]]) && actors[owner[i]].i == i)
    && (forall a :: 0 <= a < |actors| && Owns(actors[a]) ==>
          actors[a].i in owner && owner[actors[a].i] == a)
  }

  ghost predicate WithinTop(s: Pool, a: Actor) {
    && (Racing(a) ==> a.current <= s.h.top)
    && (a.Loop? ==> a.seen <= s.peak)
  }

  /** No allocation in the peak loop has seen more than the peak, nor counted more than the top;
      if the peak is behind the top, whoever reached the top is still on the way to report it. */
  ghost predicate Tracked(s: Pool) {
    && s.inFlight <= s.h.top && s.peak <= s.h.top
    && (forall a :: 0 <= a < |s.actors| ==> WithinTop(s, s.actors[a]))
    && (s.peak < s.h.top ==>
          s.h.leader < |s.actors| && Racing(s.actors[s.h.leader]) && s.actors[s.h.leader].current == s.h.top)
  }

  ghost predicate Tallied(s: Pool) {
    && s.inFlight == Size(s.actors, InFlight)
    && Size(s.actors, Owns) == |s.h.owner|
    && Size(s.actors, IsReleased) <= s.threads
    && |s.flags| + s.threads < U32
  }

  ghost predicate Inv(s: Pool) {
    Exclusive(s) && Tracked(s) && Tallied(s)
  }

  lemma StartIsGood(base: nat, bufSize: nat, capacity: nat, threads: nat)
    requires capacity + threads < U32
    ensures Inv(Start(base, bufSize, capacity, threads))
  {
  }

  // ----- Every step keeps it -----

  lemma SizePut(actors: seq<Actor>, a: nat, x: Actor, p: Actor -> bool)
    requires a < |actors|
    ensures Size(actors[a := x], p) == Size(actors, p) + (if p(x) then 1 else 0) - (if p(actors[a]) then 1 else 0)
  {
    assert Mark(actors[a := x], p) == Mark(actors, p)[a := p(x)];
    CountUpdate(Mark(actors, p), a, p(x));
  }

  lemma SizeAppend(actors: seq<Actor>, x: Actor, p: Actor -> bool)
    ensures Size(actors + [x], p) == Size(actors, p) + (if p(x) then 1 else 0)
  {
    assert Mark(actors + [x], p) == Mark(actors, p) + [p(x)];
    CountAppend(Mark(actors, p), p(x));
  }

  lemma {:induction false} SizeSplit(actors: seq<Actor>)
    ensures Size(actors, InFlight) <= Size(actors, Owns) + Size(actors, IsReleased)
  {
    if actors != [] {
      var n := |actors| - 1;
      SizeSplit(actors[..n]);
      assert actors == actors[..n] + [actors[n]];
      SizeAppend(actors[..n], actors[n], InFlight);
      SizeAppend(actors[..n], actors[n], Owns);
      SizeAppend(actors[..n], actors[n], IsReleased);
    }
  }

  function Below(n: nat): (r: set<nat>)
    ensures |r| == n && forall i: nat :: i in r <==> i < n
  {
    if n == 0 then {} else Below(n - 1) + {n - 1}
  }

  lemma SubsetSize(a: set<nat>, b: set<nat>)
    requires a <= b
    ensures |a| <= |b|
  {
    assert b == a + (b - a);
  }

  /** Slots bound the owners, threads bound the drops, so the counter cannot wrap. */
  lemma NeverWraps(s: Pool)
    requires Exclusive(s) && Size(s.actors, Owns) == |s.h.owner| && Size(s.actors, IsReleased) <= s.threads
    ensures Size(s.actors, InFlight) <= |s.flags| + s.threads
  {
    SizeSplit(s.actors);
    SubsetSize(s.h.owner.Keys, Below(|s.flags|));
  }

  lemma MoveKeepsExclusive(s: Pool, a: nat, x: Actor)
    requires Exclusive(s) && a < |s.actors|
    requires Owns(x) == Owns(s.actors[a]) && (Owns(x) ==> x.i == s.actors[a].i)
    ensures Exclusive(Put(s, a, x))
  {
  }

  lemma ClaimKeepsExclusive(s: Pool, a: nat, x: Actor)
    requires Exclusive(s) && a < |s.actors| && !Owns(s.actors[a]) && Owns(x) && x.i < |s.flags| && !s.flags[x.i]
    ensures Exclusive(Put(s, a, x).(flags := s.flags[x.i := true], h := s.h.(owner := s.h.owner[x.i := a])))
  {
  }

  lemma ClearKeepsExclusive(s: Pool, a: nat, x: Actor)
    requires Exclusive(s) && a < |s.actors| && Owns(s.actors[a]) && !Owns(x) && s.actors[a].i < |s.flags|
    ensures Exclusive(Put(Clear(s, s.actors[a].i), a, x))
  {
  }

  lemma ExclusiveStep(s: Pool, e: Step)
    requires Exclusive(s) && Enabled(s, e)
    ensures Exclusive(Apply(s, e))
  {
    if !e.Begin? {
      hide OneOwner;
      var x := Apply(s, e).actors[e.a];
      if e.Cas? && !s.flags[s.actors[e.a].i] {
        ClaimKeepsExclusive(s, e.a, x);
      } else if e.Unset? || e.Drop? {
        ClearKeepsExclusive(s, e.a, x);
      } else {
        MoveKeepsExclusive(s, e.a, x);
      }
    }
  }

  function One(b: bool): int {
    if b then 1 else 0
  }

  /** Only the acting allocation moves, and the counter and the owners move with it. */
  lemma ActorStep(s: Pool, e: Step)
    requires Enabled(s, e) && !e.Begin?
    ensures var t := Apply(s, e); var x := t.actors[e.a];
            && t.actors == s.actors[e.a := x] && |t.flags| == |s.flags| && t.threads == s.threads
            && t.inFlight == (s.inFlight + One(e.AddInFlight?) - One(e.SubInFlight?)) % U32
            && One(e.AddInFlight?) - One(e.SubInFlight?) == One(InFlight(x)) - One(InFlight(s.actors[e.a]))
            && (IsReleased(x) && !IsReleased(s.actors[e.a]) ==> Size(s.actors, IsReleased) < s.threads)
  {
  }

  lemma OwnerStep(s: Pool, e: Step)
    requires Enabled(s, e) && !e.Begin?
    requires e.Cas? && !s.flags[s.actors[e.a].i] ==> s.actors[e.a].i !in s.h.owner
    requires e.Unset? || e.Drop? ==> s.actors[e.a].i in s.h.owner
    ensures var t := Apply(s, e); |t.h.owner| == |s.h.owner| + One(Owns(t.actors[e.a])) - One(Owns(s.actors[e.a]))
  {
    if e.Unset? || e.Drop? {
      Removal(s.h.owner, s.actors[e.a].i);
    }
  }

  lemma Removal(m: map<nat, nat>, i: nat)
    requires i in m
    ensures |m - {i}| == |m| - 1
  {
    assert (m - {i}).Keys == m.Keys - {i};
  }

  /** The tallies are kept, and so the counter moves by exactly what was added or subtracted. */
  lemma TalliedStep(s: Pool, e: Step)
    requires Exclusive(s) && Tallied(s) && Enabled(s, e)
    ensures Tallied(Apply(s, e))
    ensures Apply(s, e).inFlight == s.inFlight + One(e.AddInFlight?) - One(e.SubInFlight?)
  {
    var t := Apply(s, e);
    ExclusiveStep(s, e);
    if e.Begin? {
      SizeAppend(s.actors, Scan(0, e.align), InFlight);
      SizeAppend(s.actors, Scan(0, e.align), Owns);
      SizeAppend(s.actors, Scan(0, e.align), IsReleased);
    } else {
      TalliedMove(s, e);
    }
  }

  lemma ActingSlot(s: Pool, e: Step)
    requires Exclusive(s) && Enabled(s, e) && !e.Begin?
    ensures e.Cas? && !s.flags[s.actors[e.a].i] ==> s.actors[e.a].i !in s.h.owner
    ensures e.Unset? || e.Drop? ==> s.actors[e.a].i in s.h.owner
  {
    assert e.Unset? || e.Drop? ==> Owns(s.actors[e.a]);
  }

  lemma TalliedMove(s: Pool, e: Step)
    requires Exclusive(s) && Tallied(s) && Enabled(s, e) && !e.Begin? && Exclusive(Apply(s, e))
    ensures Tallied(Apply(s, e))
    ensures Apply(s, e).inFlight == s.inFlight + One(e.AddInFlight?) - One(e.SubInFlight?)
  {
    hide Apply, Exclusive, Size;
    ActingSlot(s, e);
    var t := Apply(s, e);
    ActorStep(s, e);
    SizePut(s.actors, e.a, t.actors[e.a], InFlight);
    SizePut(s.actors, e.a, t.actors[e.a], Owns);
    SizePut(s.actors, e.a, t.actors[e.a], IsReleased);
    OwnerStep(s, e);
    NeverWraps(t);
  }

  /** Another allocation's view stays valid as peak and top grow. */
  lemma WithinTopStays(s: Pool, t: Pool, a: nat)
    requires Tracked(s) && s.peak <= t.peak && s.h.top <= t.h.top && a < |t.actors| && WithinTop(t, t.actors[a])
    requires t.actors == if a < |s.actors| then s.actors[a := t.actors[a]] else s.actors + [t.actors[a]]
    ensures forall b :: 0 <= b < |t.actors| ==> WithinTop(t, t.actors[b])
  {
    forall b | 0 <= b < |t.actors| && b != a ensures WithinTop(t, t.actors[b]) {
      assert b < |s.actors| && t.actors[b] == s.actors[b];
      assert WithinTop(s, s.actors[b]);
    }
  }

  lemma TrackedStep(s: Pool, e: Step)
    requires Tracked(s) && Enabled(s, e)
    requires Apply(s, e).inFlight == s.inFlight + (if e.AddInFlight? then 1 else 0) - (if e.SubInFlight? then 1 else 0)
    ensures Tracked(Apply(s, e)) && Apply(s, e).peak >= s.peak
  {
    var t := Apply(s, e);
    var a := if e.Begin? then |s.actors| else e.a;
    assert a < |t.actors|;
    if a < |s.actors| { assert WithinTop(s, s.actors[a]); }
    assert s.peak <= t.peak && s.h.top <= t.h.top && WithinTop(t, t.actors[a]);
    WithinTopStays(s, t, a);
  }

  lemma StepKeepsInv(s: Pool, e: Step)
    requires Inv(s) && Enabled(s, e)
    ensures Inv(Apply(s, e)) && Apply(s, e).peak >= s.peak
  {
    hide Apply, Exclusive, Tracked;
    ExclusiveStep(s, e);
    TalliedStep(s, e);
    TrackedStep(s, e);
  }

  lemma {:induction false} RunKeepsInv(s: Pool, trace: seq<Step>)
    requires Inv(s) && Runs(s, trace)
    ensures Inv(After(s, trace)) && After(s, trace).peak >= s.peak
    decreases |trace|
  {
    hide Apply, Inv, Enabled;
    if trace != [] {
      StepKeepsInv(s, trace[0]);
      RunKeepsInv(Apply(s, trace[0]), trace[1..]);
    }
  }

  // ----- What holds of all runs -----

  /** The greatest value the in-flight counter had at any moment of a run. */
  ghost function MaxInFlight(s: Pool, trace: seq<Step>): nat
    requires Runs(s, trace)
    decreases |trace|
  {
    if trace == [] then s.inFlight
    else
      var later := MaxInFlight(Apply(s, trace[0]), trace[1..]);
      if later > s.inFlight then later else s.inFlight
  }

  lemma {:induction false} TopIsHistoricalMax(s: Pool, trace: seq<Step>)
    requires Inv(s) && Runs(s, trace)
    ensures After(s, trace).h.top == if MaxInFlight(s, trace) > s.h.top then MaxInFlight(s, trace) else s.h.top
    decreases |trace|
  {
    if trace != [] {
      var t := Apply(s, trace[0]);
      StepKeepsInv(s, trace[0]);
      TopStep(s, trace[0]);
      hide Apply, Inv, Enabled;
      TopIsHistoricalMax(t, trace[1..]);
    }
  }

  lemma TopStep(s: Pool, e: Step)
    requires Enabled(s, e) && s.inFlight <= s.h.top && Apply(s, e).inFlight <= Apply(s, e).h.top
    ensures var t := Apply(s, e); t.h.top == (if t.inFlight > s.h.top then t.inFlight else s.h.top)
  {
  }

  /** Peak tracking is exact: whenever no allocation is between its increment and the end of
      the peak loop, the recorded peak is the greatest in-flight count of the whole run. */
  lemma PeakIsExact(base: nat, bufSize: nat, capacity: nat, threads: nat, trace: seq<Step>)
    requires capacity + threads < U32 && Runs(Start(base, bufSize, capacity, threads), trace)
    requires forall a :: a in After(Start(base, bufSize, capacity, threads), trace).actors ==> !Racing(a)
    ensures var s := Start(base, bufSize, capacity, threads); After(s, trace).peak == MaxInFlight(s, trace)
  {
    var s := Start(base, bufSize, capacity, threads);
    StartIsGood(base, bufSize, capacity, threads);
    RunKeepsInv(s, trace);
    TopIsHistoricalMax(s, trace);
  }

  /** While allocations are racing the peak may lag, but it never overstates. */
  lemma PeakNeverOverstates(base: nat, bufSize: nat, capacity: nat, threads: nat, trace: seq<Step>)
    requires capacity + threads < U32 && Runs(Start(base, bufSize, capacity, threads), trace)
    ensures var s := Start(base, bufSize, capacity, threads); After(s, trace).peak <= MaxInFlight(s, trace)
  {
    var s := Start(base, bufSize, capacity, threads);
    StartIsGood(base, bufSize, capacity, threads);
    RunKeepsInv(s, trace);
    TopIsHistoricalMax(s, trace);
  }

  /** Each failed compare-and-swap of the peak loop strictly lowers `current - seen`, which
      nobody else can raise, so the loop ends. */
  lemma RetryMakesProgress(s: Pool, e: Step, a: nat)
    requires Inv(s) && Enabled(s, e) && a < |s.actors| && s.actors[a].Loop?
    ensures var t := Apply(s, e);
            a < |t.actors| && (t.actors[a].Loop? ==>
              t.actors[a].current == s.actors[a].current
              && (if e == CasPeak(a) then s.actors[a].seen < t.actors[a].seen && s.actors[a].seen < s.actors[a].current
                  else t.actors[a].seen == s.actors[a].seen))
  {
    assert WithinTop(s, s.actors[a]);
    hide Exclusive, Tallied;
  }

  /** No slot has two owners, an owned slot's flag is set and a free slot's flag is clear, and
      the buffers of two owners are disjoint and inside the mapped region. */
  lemma SlotsAreExclusive(base: nat, bufSize: nat, capacity: nat, threads: nat, trace: seq<Step>, a: nat, b: nat)
    requires capacity + threads < U32 && Runs(Start(base, bufSize, capacity, threads), trace)
    requires var s := After(Start(base, bufSize, capacity, threads), trace);
             a < |s.actors| && b < |s.actors| && a != b && Owns(s.actors[a]) && Owns(s.actors[b])
    ensures var s := After(Start(base, bufSize, capacity, threads), trace);
            var i, j := s.actors[a].i, s.actors[b].i;
            && i != j && i < capacity && j < capacity && |s.flags| == capacity && s.flags[i] && s.flags[j]
            && (base + i * bufSize + bufSize <= base + j * bufSize || base + j * bufSize + bufSize <= base + i * bufSize)
            && base + i * bufSize + bufSize <= base + capacity * bufSize
  {
    var s := After(Start(base, bufSize, capacity, threads), trace);
    StartIsGood(base, bufSize, capacity, threads);
    RunKeepsInv(Start(base, bufSize, capacity, threads), trace);
    ShapeStays(Start(base, bufSize, capacity, threads), trace);
    var i, j := s.actors[a].i, s.actors[b].i;
    assert s.h.owner[i] == a && s.h.owner[j] == b;
    Spread(i, j, bufSize);
    Spread(j, i, bufSize);
    Spread(i, capacity, bufSize);
  }

  lemma Spread(i: nat, j: nat, size: nat)
    ensures i < j ==> i * size + size <= j * size
  {
    Multiple(size, j - i);
    assert size * (j - i) == j * size - i * size;
  }

  lemma {:induction false} ShapeStays(s: Pool, trace: seq<Step>)
    requires Runs(s, trace)
    ensures var t := After(s, trace); |t.flags| == |s.flags| && t.base == s.base && t.bufSize == s.bufSize
    decreases |trace|
  {
    if trace != [] {
      var t := Apply(s, trace[0]);
      assert |t.flags| == |s.flags| && t.base == s.base && t.bufSize == s.bufSize;
      ShapeStays(t, trace[1..]);
    }
  }

  /** A slot's flag is set exactly while somebody owns the slot. */
  lemma FlagIffOwned(base: nat, bufSize: nat, capacity: nat, threads: nat, trace: seq<Step>, i: nat)
    requires capacity + threads < U32 && Runs(Start(base, bufSize, capacity, threads), trace)
    requires i < capacity
    ensures var s := After(Start(base, bufSize, capacity, threads), trace);
            && |s.flags| == capacity
            && (s.flags[i] <==> exists a :: 0 <= a < |s.actors| && Owns(s.actors[a]) && s.actors[a].i == i)
  {
    hide Runs, After;
    var s := After(Start(base, bufSize, capacity, threads), trace);
    StartIsGood(base, bufSize, capacity, threads);
    RunKeepsInv(Start(base, bufSize, capacity, threads), trace);
    ShapeStays(Start(base, bufSize, capacity, threads), trace);
    if s.flags[i] {
      assert Owns(s.actors[s.h.owner[i]]);
    }
  }

  /** The in-flight counter is the number of handles past their increment plus the number of
      drops that have cleared their flag but not decremented yet. */
  lemma CounterIsExact(base: nat, bufSize: nat, capacity: nat, threads: nat, trace: seq<Step>)
    requires capacity + threads < U32 && Runs(Start(base, bufSize, capacity, threads), trace)
    ensures var s := After(Start(base, bufSize, capacity, threads), trace);
            s.inFlight == Size(s.actors, x => Racing(x) || x.Holding?) + Size(s.actors, IsReleased)
  {
    var s := After(Start(base, bufSize, capacity, threads), trace);
    StartIsGood(base, bufSize, capacity, threads);
    RunKeepsInv(Start(base, bufSize, capacity, threads), trace);
    SizeParts(s.actors);
  }

  lemma {:induction false} SizeParts(actors: seq<Actor>)
    ensures Size(actors, InFlight) == Size(actors, x => Racing(x) || x.Holding?) + Size(actors, IsReleased)
  {
    if actors != [] {
      var n := |actors| - 1;
      SizeParts(actors[..n]);
      assert actors == actors[..n] + [actors[n]];
      SizeAppend(actors[..n], actors[n], InFlight);
      SizeAppend(actors[..n], actors[n], x => Racing(x) || x.Holding?);
      SizeAppend(actors[..n], actors[n], IsReleased);
    }
  }

  // ----- What it means to be refused -----

  lemma {:induction false} RunsOn(s: Pool, trace: seq<Step>, e: Step)
    requires Runs(s, trace) && Enabled(After(s, trace), e)
    ensures Runs(s, trace + [e]) && After(s, trace + [e]) == Apply(After(s, trace), e)
    decreases |trace|
  {
    hide Apply, Enabled;
    if trace == [] {
      assert [e][1..] == [];
    } else {
      RunsOn(Apply(s, trace[0]), trace[1..], e);
      assert (trace + [e])[1..] == trace[1..] + [e];
    }
  }

  /** Slot `i` belongs to somebody else. */
  ghost predicate Taken(s: Pool, a: nat, i: nat) {
    exists b :: 0 <= b < |s.actors| && b != a && Owns(s.actors[b]) && s.actors[b].i == i
  }

  predicate Misaligned(s: Pool, align: Option<Alignment>, i: nat) {
    align.Some? && Addr(s, i) % align.value != 0
  }

  /** Allocation `a`, which asked for `align`, tries slot `i`, and somebody else owns it or its
      address does not fit. */
  ghost predicate Refused(s: Pool, e: Step, a: nat, align: Option<Alignment>, i: nat) {
    && Enabled(s, e) && e == Cas(a) && s.actors[a].i == i && s.actors[a].align == align
    && (Taken(s, a, i) || Misaligned(s, align, i))
  }

  /** That happens at some point of the run. */
  ghost predicate FoundTaken(s: Pool, trace: seq<Step>, a: nat, align: Option<Alignment>, i: nat)
    decreases |trace|
  {
    && trace != [] && Enabled(s, trace[0])
    && (Refused(s, trace[0], a, align, i) || FoundTaken(Apply(s, trace[0]), trace[1..], a, align, i))
  }

  /** And it happens with every slot. */
  ghost predicate FoundNothing(s: Pool, trace: seq<Step>, a: nat, align: Option<Alignment>) {
    forall i: nat :: i < |s.flags| ==> FoundTaken(s, trace, a, align, i)
  }

  /** Allocation `a`, if it asks for `align`, is not past slot `i`: it has not begun, still has to
      try the slot, or has found one. */
  predicate NotPast(s: Pool, a: nat, align: Option<Alignment>, i: nat) {
    a < |s.actors| && (s.actors[a].Scan? || s.actors[a].Reject?) && s.actors[a].align == align ==>
      s.actors[a].i < i || (s.actors[a].Scan? && s.actors[a].i == i)
  }

  lemma PassesOnlyIfRefused(s: Pool, e: Step, a: nat, align: Option<Alignment>, i: nat)
    requires Exclusive(s) && Enabled(s, e) && NotPast(s, a, align, i)
    ensures NotPast(Apply(s, e), a, align, i) || Refused(s, e, a, align, i)
  {
    if e == Cas(a) && s.actors[a].i == i && s.flags[i] {
      var b := s.h.owner[i];
      assert b != a && Owns(s.actors[b]) && s.actors[b].i == i;
    }
  }

  lemma {:induction false} PassedMeansTaken(s: Pool, trace: seq<Step>, a: nat, align: Option<Alignment>, i: nat)
    requires Exclusive(s) && Runs(s, trace) && NotPast(s, a, align, i) && !NotPast(After(s, trace), a, align, i)
    ensures FoundTaken(s, trace, a, align, i)
    decreases |trace|
  {
    PassesOnlyIfRefused(s, trace[0], a, align, i);
    ExclusiveStep(s, trace[0]);
    hide Exclusive, Refused, NotPast;
    if !Refused(s, trace[0], a, align, i) {
      PassedMeansTaken(Apply(s, trace[0]), trace[1..], a, align, i);
    }
  }

  /** An allocation that gives up has tried every slot, and each of them was owned by somebody else
      when it did, or its address did not fit the alignment asked for. */
  lemma NoneMeansTaken(base: nat, bufSize: nat, capacity: nat, threads: nat, trace: seq<Step>, a: nat)
    requires Runs(Start(base, bufSize, capacity, threads), trace)
    requires Enabled(After(Start(base, bufSize, capacity, threads), trace), GiveUp(a))
    ensures var s := Start(base, bufSize, capacity, threads); FoundNothing(s, trace, a, After(s, trace).actors[a].align)
  {
    var s := Start(base, bufSize, capacity, threads);
    var align := After(s, trace).actors[a].align;
    ShapeStays(s, trace);
    forall i: nat | i < capacity ensures FoundTaken(s, trace, a, align, i) {
      PassedMeansTaken(s, trace, a, align, i);
    }
  }

  /** The owner need not have a handle.  An aligned allocation claims a slot before it looks at the
      address; while it does, a plain one finds nothing, although no handle has ever existed. */
  lemma SomeRunRefusesForNoHandle(threads: nat) returns (trace: seq<Step>)
    ensures Runs(Start(1, 1, 1, threads), trace)
    ensures var s := After(Start(1, 1, 1, threads), trace);
            s.h.top == 0 && s.flags == [false] && s.actors == [Scan(1, Some(2)), Gone]
    ensures trace == [Begin(Some(2)), Cas(0), Begin(None), Cas(1), GiveUp(1), Unset(0)]
  {
    hide Runs, After;
    var s := Start(1, 1, 1, threads);
    Stay(s);
    trace := [];
    RunsOn(s, trace, Begin(Some(2)));
    trace := trace + [Begin(Some(2))];
    RunsOn(s, trace, Cas(0));
    trace := trace + [Cas(0)];
    RunsOn(s, trace, Begin(None));
    trace := trace + [Begin(None)];
    RunsOn(s, trace, Cas(1));
    trace := trace + [Cas(1)];
    RunsOn(s, trace, GiveUp(1));
    trace := trace + [GiveUp(1)];
    RunsOn(s, trace, Unset(0));
    trace := trace + [Unset(0)];
  }

  lemma Stay(s: Pool)
    ensures Runs(s, []) && After(s, []) == s
  {
  }
}
