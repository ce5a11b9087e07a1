/** The virtual submission and completion rings. */
module Rings {
  import opened Words
  import opened RingIndex

  datatype Cqe = Cqe(userData: u64, res: int)

  /** The producer side of a submission ring: two counters.  `consumed` is the position the
      consumer has reached; `outstanding` entries are published and not consumed. */
  class SubmissionRing {
    const entries: Size
    var head: u32
    var tail: u32
    ghost var consumed: nat
    ghost var outstanding: nat

    ghost predicate Valid()
      reads this
    {
      head == Wrap32(consumed) && tail == Wrap32(consumed + outstanding) && outstanding < U32
    }

    constructor (entries: Size)
      ensures Valid() && this.entries == entries && outstanding == 0
    {
      this.entries := entries;
      head, tail := 0, 0;
      consumed, outstanding := 0, 0;
    }

    /** Right while the ring is not full; a full ring reports all of its slots free. */
    method FreeSlots() returns (r: u32)
      requires Valid()
      ensures r == entries - outstanding % entries
      ensures outstanding <= entries ==> (r == entries - outstanding <==> outstanding < entries)
    {
      hide IsPow2, BitAnd, Holds, Wrap32, Slot, Masked, At;
      MaskedDistance(consumed, outstanding, entries);
      r := entries - Masked(tail, head, entries);
    }

    /** Never says no. */
    method HasRoom() returns (room: bool)
      requires Valid()
      ensures room
    {
      var free := FreeSlots();
      room := free > 0;
    }

    /** `fetch_add(count)`: no check, and the 32-bit counter wraps. */
    method Publish(count: u32) returns (first: u32)
      requires Valid() && outstanding + count < U32
      modifies this
      ensures Valid() && first == old(tail) && head == old(head) && consumed == old(consumed)
      ensures outstanding == old(outstanding) + count
    {
      first := tail;
      Advance(consumed + outstanding, count);
      hide Wrap32;
      tail := Wrap32(tail + count);
      outstanding := outstanding + count;
    }

    /** The consumer (the kernel or a reactor) takes `count` entries. */
    method Take(count: u32)
      requires Valid() && count <= outstanding
      modifies this
      ensures Valid() && tail == old(tail)
      ensures consumed == old(consumed) + count && outstanding == old(outstanding) - count
    {
      Advance(consumed, count);
      hide Wrap32;
      head := Wrap32(head + count);
      consumed, outstanding := consumed + count, outstanding - count;
    }
  }

  lemma Unread<T>(all: seq<T>, k: nat)
    requires k < |all|
    ensures all[k..][0] == all[k] && all[k..][1..] == all[k + 1..] && all[..k] + [all[k]] == all[..k + 1]
  {
  }

  /** A completion ring with its one consumer.  `queue` is what is outstanding, `supply` what
      the producer is still going to post, in order; it posts whenever it likes and there is a
      free slot.  `filled` records whether it ever filled the ring to the last slot. */
  class CompletionRing {
    const entries: Size
    const cqes: array<Cqe>
    var head: u32
    var tail: u32
    var supply: seq<Cqe>
    ghost var pos: nat
    ghost var queue: seq<Cqe>
    ghost var filled: bool

    ghost predicate Valid()
      reads this, cqes
    {
      && cqes.Length == entries && |queue| <= entries && Holds(cqes[..], pos, queue)
      && head == Wrap32(pos) && tail == Wrap32(pos + |queue|)
      && (|queue| == entries ==> filled)
    }

    /** Everything the consumer is still going to see: what is queued and what will be. */
    ghost function Pending(): seq<Cqe>
      reads this
    {
      queue + supply
    }

    /** An empty ring whose counters stand at any value. */
    constructor (entries: Size, start: u32, supply: seq<Cqe>)
      ensures Valid() && fresh(cqes) && this.entries == entries && head == start
      ensures queue == [] && this.supply == supply && !filled
    {
      this.entries := entries;
      this.supply := supply;
      cqes := new Cqe[entries](_ => Cqe(0, 0));
      head, tail := start, start;
      pos, queue, filled := start, [], false;
    }

    /** The producer writes the slot and advances the tail. */
    method Post()
      requires Valid() && supply != [] && |queue| < entries
      modifies this`tail, this`supply, this`queue, this`filled, cqes
      ensures Valid() && queue == old(queue) + [old(supply)[0]] && supply == old(supply)[1..]
      ensures cqes[..] == old(cqes[..])[At(pos + |old(queue)|, entries) := old(supply)[0]]
      ensures filled == (old(filled) || |queue| == entries)
    {
      hide IsPow2, BitAnd, Holds, Wrap32, Slot, Masked, At;
      SlotOfPosition(pos + |queue|, entries);
      PostKeeps(cqes[..], pos, queue, supply[0]);
      Advance(pos + |queue|, 1);
      cqes[Slot(tail, entries)] := supply[0];
      tail := Wrap32(tail + 1);
      queue := queue + [supply[0]];
      filled := filled || |queue| == entries;
      supply := supply[1..];
    }

    /** The producer posts some of its supply. */
    method Interfere()
      requires Valid()
      modifies this`tail, this`supply, this`queue, this`filled, cqes
      ensures Valid() && old(queue) <= queue && Pending() == old(Pending())
      ensures |supply| <= |old(supply)|
      ensures |old(queue)| == entries ==> queue == old(queue) && supply == old(supply)
      ensures filled == (old(filled) || (queue != old(queue) && |queue| == entries))
    {
      hide IsPow2, BitAnd, Holds, Wrap32, Slot, Masked, At;
      var n: nat := *;
      while n > 0 && supply != []
        invariant Valid() && old(queue) <= queue && Pending() == old(Pending())
        invariant |supply| <= |old(supply)| && (queue == old(queue) ==> supply == old(supply))
        invariant filled == (old(filled) || (queue != old(queue) && |queue| == entries))
      {
        Distance(pos, |queue|);
        if Sub32(tail, head) >= entries {
          break;
        }
        Post();
        n := n - 1;
      }
    }

    /** The true length, unless the ring is full. */
    method Available() returns (r: nat)
      requires Valid()
      ensures r == |queue| % entries
      ensures r == |queue| <==> |queue| < entries
      ensures r == 0 <==> queue == [] || |queue| == entries
    {
      hide IsPow2, BitAnd, Holds, Wrap32, Slot, Masked, At;
      MaskedDistance(pos, |queue|, entries);
      r := Masked(tail, head, entries);
    }

    method Peek() returns (r: Option<Cqe>)
      requires Valid()
      ensures r == if 0 < |queue| < entries then Some(queue[0]) else None
    {
      hide IsPow2, BitAnd, Holds, Wrap32, Slot, Masked, At;
      var n := Available();
      if n == 0 {
        return None;
      }
      SlotOfPosition(pos, entries);
      PopKeeps(cqes[..], pos, queue);
      r := Some(cqes[Slot(head, entries)]);
    }

    /** Advances the head first and reads the slot afterwards.  What it reads is the oldest
        entry exactly if the producer has not meanwhile filled the ring behind it; otherwise it
        is the newest one (`LeftSlotAfter` says that both happen in rings of every size). */
    method Consume() returns (r: Option<Cqe>)
      requires Valid()
      modifies this, cqes
      ensures Valid() && |supply| <= |old(supply)| && (old(filled) ==> filled)
      ensures r.None? <==> old(queue) == [] || |old(queue)| == entries
      ensures r.None? ==> queue == old(queue) && supply == old(supply) && filled == old(filled) && Pending() == old(Pending())
      ensures r.Some? ==> old(Pending()) != [] && Pending() == old(Pending())[1..]
      ensures r.Some? && |queue| < entries ==> r.value == old(Pending())[0]
      ensures r.Some? && |queue| == entries ==> r.value == queue[entries - 1]
    {
      hide IsPow2, BitAnd, Holds, Wrap32, Slot, Masked, At;
      var n := Available();
      if n == 0 {
        return None;
      }
      Interfere();
      ghost var first := queue[0];
      SlotOfPosition(pos, entries);
      PopKeeps(cqes[..], pos, queue);
      var index := Slot(head, entries);
      Advance(pos, 1);
      head := Wrap32(head + 1);
      pos, queue := pos + 1, queue[1..];
      InterfereBehind(index, first);
      r := Some(cqes[index]);
    }

    /** The producer runs while the consumer still has to read the slot it has left. */
    method InterfereBehind(index: nat, ghost first: Cqe)
      requires Valid() && index < entries && pos > 0 && index == At(pos - 1, entries)
      requires |queue| < entries && cqes[index] == first
      modifies this`tail, this`supply, this`queue, this`filled, cqes
      ensures Valid() && Pending() == old(Pending()) && |supply| <= |old(supply)| && (old(filled) ==> filled)
      ensures cqes[index] == if |queue| < entries then first else queue[entries - 1]
    {
      hide IsPow2, BitAnd, Holds, Wrap32, Slot, Masked, At;
      var n: nat := *;
      while n > 0 && supply != []
        invariant Valid() && Pending() == old(Pending()) && |supply| <= |old(supply)| && (old(filled) ==> filled)
        invariant cqes[index] == if |queue| < entries then first else queue[entries - 1]
      {
        Distance(pos, |queue|);
        if Sub32(tail, head) >= entries {
          break;
        }
        LeftSlotDiffers(pos - 1, |queue|, entries);
        Post();
        n := n - 1;
      }
    }

    lemma PendingOfEmpty()
      ensures queue == [] ==> Pending() == supply
    {
    }

    /** Unless the producer fills the ring, everything comes out once and in order and nothing
        is left; in any case the loop ends, and it ends on an empty or on a full ring. */
    method Drain() returns (results: seq<Cqe>)
      requires Valid()
      modifies this, cqes
      ensures Valid() && (queue == [] || |queue| == entries)
      ensures |results| <= |old(Pending())|
      ensures Pending() == old(Pending())[|results|..]
      ensures !filled ==> queue == [] && results + supply == old(Pending())
      ensures |old(queue)| == entries ==> results == [] && queue == old(queue) && supply == old(supply)
    {
      hide IsPow2, BitAnd, Holds, Wrap32, Slot, Masked, At, Pending;
      results := [];
      ghost var all := Pending();
      while true
        invariant Valid() && |results| <= |all| && Pending() == all[|results|..]
        invariant !filled ==> results == all[..|results|]
        invariant |old(queue)| == entries ==> results == [] && queue == old(queue) && supply == old(supply)
        decreases |all| - |results|
      {
        Interfere();
        ghost var k := |results|;
        var r := Consume();
        if r.None? {
          break;
        }
        Unread(all, k);
        results := results + [r.value];
      }
      PendingOfEmpty();
      if !filled {
        assert results + supply == all;
      }
    }
  }
}
