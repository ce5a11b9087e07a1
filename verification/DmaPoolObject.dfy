/** The pool object as the program writes it: scan loops, compare-and-swap on the slot flags, the
    peak retry loop and the handle's drop, with everybody else active between any two atomic
    operations. */
module DmaPoolObject {
  import opened Words
  import D = DmaPool

  datatype BufferHandle = BufferHandle(actor: nat, index: nat, addr: nat, size: nat)

  /** Nobody else moves an allocation along. */
  lemma OthersKeep(s: D.Pool, e: D.Step, me: nat)
    requires D.Enabled(s, e) && me < |s.actors| && D.Foreign(e, me)
    ensures var t := D.Apply(s, e); me < |t.actors| && t.actors[me] == s.actors[me]
  {
  }

  class ZeroCopyDmaPool {
    const base: nat
    const bufSize: nat
    const capacity: nat
    const threads: nat
    const slots: array<bool>
    var inFlight: u32
    var peak: u32
    var s: D.Pool
    ghost var trace: seq<D.Step>

    ghost function Origin(): D.Pool {
      D.Start(base, bufSize, capacity, threads)
    }

    ghost predicate Valid()
      reads this, slots
    {
      && capacity + threads < U32 && slots.Length == capacity
      && D.Runs(Origin(), trace) && D.After(Origin(), trace) == s
      && Matches(s)
    }

    ghost predicate Matches(t: D.Pool)
      reads this, slots
    {
      && slots[..] == t.flags && inFlight == t.inFlight && peak == t.peak
      && t.base == base && t.bufSize == bufSize && t.threads == threads && |t.flags| == capacity
    }

    constructor (base: nat, bufSize: nat, capacity: nat, threads: nat)
      requires capacity + threads < U32
      ensures Valid() && fresh(slots) && trace == []
      ensures this.base == base && this.bufSize == bufSize && this.capacity == capacity && this.threads == threads
    {
      this.base, this.bufSize, this.capacity, this.threads := base, bufSize, capacity, threads;
      slots := new bool[capacity](_ => false);
      inFlight, peak := 0, 0;
      s := D.Start(base, bufSize, capacity, threads);
      trace := [];
      new;
      assert slots[..] == s.flags;
    }

    /** Records that the code just executed the atomic operation `e`. */
    method Record(e: D.Step)
      requires capacity + threads < U32 && slots.Length == capacity
      requires D.Runs(Origin(), trace) && D.After(Origin(), trace) == s
      requires D.Enabled(s, e) && Matches(D.Apply(s, e))
      modifies this`s, this`trace
      ensures Valid() && s == D.Apply(old(s), e) && trace == old(trace) + [e]
    {
      hide D.Apply, D.Enabled, D.Runs, D.After;
      D.RunsOn(Origin(), trace, e);
      s := D.Apply(s, e);
      trace := trace + [e];
    }

    /** Every allocation, handle and drop but `me` takes any number of steps. */
    method Interfere(me: nat)
      requires Valid() && me < |s.actors|
      modifies this, slots
      ensures Valid() && old(trace) <= trace && me < |s.actors| && s.actors[me] == old(s).actors[me]
    {
      hide D.Apply, D.Enabled, D.Runs, D.After;
      var n: nat := *;
      while n > 0
        invariant Valid() && old(trace) <= trace && me < |s.actors| && s.actors[me] == old(s).actors[me]
      {
        var e: D.Step := *;
        if D.Enabled(s, e) && D.Foreign(e, me) {
          var t := D.Apply(s, e);
          OthersKeep(s, e, me);
          KeepsShape(s, e);
          forall i | 0 <= i < slots.Length { slots[i] := t.flags[i]; }
          inFlight, peak := t.inFlight, t.peak;
          Record(e);
        }
        n := n - 1;
      }
    }

    lemma KeepsShape(s: D.Pool, e: D.Step)
      requires D.Enabled(s, e)
      ensures var t := D.Apply(s, e); |t.flags| == |s.flags| && t.base == s.base && t.bufSize == s.bufSize && t.threads == s.threads
    {
    }

    /** `record_alloc` for the slot that `me` has just claimed. */
    method RecordAlloc(me: nat)
      requires Valid() && me < |s.actors| && s.actors[me].Acquired?
      modifies this, slots
      ensures Valid() && old(trace) <= trace && me < |s.actors| && s.actors[me] == D.Holding(old(s).actors[me].i)
    {
      hide D.Runs, D.After;
      Interfere(me);
      inFlight := Wrap32(inFlight + 1);
      var current := inFlight;
      Record(D.AddInFlight(me));
      Interfere(me);
      var seen := peak;
      Record(D.LoadPeak(me));
      while current > seen
        invariant Valid() && old(trace) <= trace && me < |s.actors|
        invariant s.actors[me] == D.Loop(old(s).actors[me].i, current, seen)
        decreases if current > seen then current - seen else 0
      {
        Interfere(me);
        SeenIsBehind(me);
        if peak == seen {
          peak := current;
          Record(D.CasPeak(me));
          return;
        }
        seen := peak;
        Record(D.CasPeak(me));
      }
      Record(D.CasPeak(me));
    }

    /** Nobody ever lowers the peak. */
    lemma SeenIsBehind(me: nat)
      requires Valid() && me < |s.actors| && s.actors[me].Loop?
      ensures s.actors[me].seen <= peak
    {
      D.StartIsGood(base, bufSize, capacity, threads);
      D.RunKeepsInv(Origin(), trace);
      assert D.WithinTop(s, s.actors[me]);
    }

    /** The call of `me` has just given up, and at some point of the run it found each slot owned
        by somebody else or misaligned for what was asked. */
    ghost predicate FoundNothing(me: nat, align: Option<D.Alignment>)
      reads this
    {
      |trace| > 0 && trace[|trace| - 1] == D.GiveUp(me) && D.FoundNothing(Origin(), trace[..|trace| - 1], me, align)
    }

    method GiveUp(me: nat)
      requires Valid() && D.Enabled(s, D.GiveUp(me))
      modifies this`s, this`trace
      ensures Valid() && trace == old(trace) + [D.GiveUp(me)] && s.actors == old(s).actors[me := D.Gone]
      ensures FoundNothing(me, old(s).actors[me].align)
    {
      hide D.Runs, D.After, D.FoundNothing;
      D.NoneMeansTaken(base, bufSize, capacity, threads, trace, me);
      Record(D.GiveUp(me));
      assert trace[..|trace| - 1] == old(trace);
    }

    /** First slot whose compare-and-swap succeeds, in slot order. */
    method Alloc() returns (r: Option<BufferHandle>)
      requires Valid()
      modifies this, slots
      ensures Valid() && old(trace) <= trace
      ensures r.Some? ==> Holds(r.value)
      ensures var me := |old(s).actors|; me < |s.actors| && (r.None? ==> s.actors[me] == D.Gone && FoundNothing(me, None)) && (r.Some? ==> r.value.actor == me)
    {
      hide D.Runs, D.After;
      var me := |s.actors|;
      Record(D.Begin(None));
      for i := 0 to capacity
        invariant Valid() && old(trace) <= trace && me < |s.actors| && s.actors[me] == D.Scan(i, None)
      {
        Interfere(me);
        if !slots[i] {
          slots[i] := true;
          Record(D.Cas(me));
          RecordAlloc(me);
          return Some(BufferHandle(me, i, base + i * bufSize, bufSize));
        }
        Record(D.Cas(me));
      }
      GiveUp(me);
      r := None;
    }

    /** A handle is backed by an allocation that owns the slot the handle describes. */
    ghost predicate Holds(h: BufferHandle)
      reads this
    {
      && h.actor < |s.actors| && s.actors[h.actor] == D.Holding(h.index)
      && h.addr == base + h.index * bufSize && h.size == bufSize
    }

    lemma HeldSlotExists(h: BufferHandle)
      requires Valid() && Holds(h)
      ensures h.index < capacity
    {
      D.StartIsGood(base, bufSize, capacity, threads);
      D.RunKeepsInv(Origin(), trace);
      assert D.Owns(s.actors[h.actor]);
    }

    /** Claims a slot before looking at its address, and gives a misaligned one back. */
    method AllocAligned(alignment: nat) returns (r: Option<BufferHandle>)
      requires Valid()
      modifies this, slots
      ensures Valid() && old(trace) <= trace
      ensures r.Some? ==> IsPow2(alignment) && Holds(r.value) && r.value.addr % alignment == 0
      ensures !IsPow2(alignment) ==> r.None? && trace == old(trace)
      ensures IsPow2(alignment) ==>
                var me := |old(s).actors|;
                me < |s.actors| && (r.None? ==> s.actors[me] == D.Gone && FoundNothing(me, Some(alignment))) && (r.Some? ==> r.value.actor == me)
    {
      hide D.Runs, D.After;
      if !IsPow2(alignment) {
        return None;
      }
      var me := |s.actors|;
      Record(D.Begin(Some(alignment)));
      for i := 0 to capacity
        invariant Valid() && old(trace) <= trace && me < |s.actors| && s.actors[me] == D.Scan(i, Some(alignment))
      {
        r := TrySlot(me, i, alignment);
        if r.Some? {
          return;
        }
      }
      GiveUp(me);
      r := None;
    }

    /** One slot of the aligned scan: taken by somebody else, claimed and kept, or claimed and
        given back because its address does not fit. */
    method TrySlot(me: nat, i: nat, alignment: D.Alignment) returns (r: Option<BufferHandle>)
      requires Valid() && i < capacity && me < |s.actors| && s.actors[me] == D.Scan(i, Some(alignment))
      modifies this, slots
      ensures Valid() && old(trace) <= trace && me < |s.actors|
      ensures r.None? ==> s.actors[me] == D.Scan(i + 1, Some(alignment))
      ensures r.Some? ==> r.value.actor == me && r.value.index == i && Holds(r.value) && r.value.addr % alignment == 0
    {
      hide D.Runs, D.After;
      Interfere(me);
      if slots[i] {
        Record(D.Cas(me));
        return None;
      }
      slots[i] := true;
      Record(D.Cas(me));
      var addr := base + i * bufSize;
      if addr % alignment == 0 {
        RecordAlloc(me);
        return Some(BufferHandle(me, i, addr, bufSize));
      }
      assert s.actors[me] == D.Reject(i, Some(alignment));
      Interfere(me);
      slots[i] := false;
      Record(D.Unset(me));
      r := None;
    }

    /** Dropping a handle clears the flag first and the counter afterwards. */
    method DropHandle(h: BufferHandle)
      requires Valid() && Holds(h) && D.Size(s.actors, D.IsReleased) < threads
      modifies this, slots
      ensures Valid() && old(trace) <= trace && h.actor < |s.actors| && s.actors[h.actor] == D.Gone
    {
      HeldSlotExists(h);
      hide D.Runs, D.After;
      slots[h.index] := false;
      Record(D.Drop(h.actor));
      Interfere(h.actor);
      inFlight := Sub32(inFlight, 1);
      Record(D.SubInFlight(h.actor));
    }
  }
}
