/** Power-of-two rings indexed by free-running 32-bit counters: what a masked counter and a
    masked distance between counters are, and when a circular buffer holds a queue. */
module RingIndex {
  import opened Words

  /** Ring sizes the counters can serve. */
  type Size = n: nat | 0 < n <= 0x8000_0000 && IsPow2(n) witness 1

  /** The slot of a position. */
  function At(pos: nat, n: nat): (i: nat)
    requires n > 0
    ensures i < n
  {
    pos % n
  }

  /** `counter & mask`. */
  function Slot(counter: u32, n: Size): nat {
    BitAnd(counter, n - 1)
  }

  /** `tail.wrapping_sub(head) & mask`, which the code takes for the number of entries. */
  function Masked(tail: u32, head: u32, n: Size): nat {
    BitAnd(Sub32(tail, head), n - 1)
  }

  /** The slot of a wrapped counter is the slot of the position it stands for, at any position
      and across the wrap. */
  lemma SlotOfPosition(pos: nat, n: Size)
    ensures Slot(Wrap32(pos), n) == At(pos, n)
  {
    MaskIsRemainder(Wrap32(pos), n);
    Pow2Words();
    Pow2Divides(n, U32);
    RemainderThrough(pos, U32, n);
  }

  /** The masked distance is the true distance modulo the ring size, so a full ring of `n`
      entries looks empty. */
  lemma MaskedDistance(pos: nat, len: nat, n: Size)
    requires len < U32
    ensures Masked(Wrap32(pos + len), Wrap32(pos), n) == len % n
    ensures len < n ==> Masked(Wrap32(pos + len), Wrap32(pos), n) == len
    ensures len == n ==> Masked(Wrap32(pos + len), Wrap32(pos), n) == 0
  {
    Distance(pos, len);
    MaskIsRemainder(len, n);
    if len < n {
      Quotient(len, n, 0, len);
    } else if len == n {
      Quotient(len, n, 1, 0);
    }
  }

  /** A masked distance is below the ring size, so no test against the size ever succeeds. */
  lemma MaskedBelow(tail: u32, head: u32, n: Size)
    ensures Masked(tail, head, n) < n
  {
    MaskIsRemainder(Sub32(tail, head), n);
  }

  lemma Distance(pos: nat, len: nat)
    requires len < U32
    ensures Sub32(Wrap32(pos + len), Wrap32(pos)) == len
  {
  }

  /** The buffer holds the queue `q`, oldest entry first, from position `pos` on. */
  ghost predicate Holds<T>(slots: seq<T>, pos: nat, q: seq<T>) {
    && 0 < |slots| && |q| <= |slots|
    && forall i :: 0 <= i < |q| ==> slots[At(pos + i, |slots|)] == q[i]
  }

  lemma Advance(pos: nat, k: nat)
    ensures Wrap32(Wrap32(pos) + k) == Wrap32(pos + k)
  {
  }

  /** Writing the slot behind the last entry appends, as long as there is one. */
  lemma PostKeeps<T>(slots: seq<T>, pos: nat, q: seq<T>, x: T)
    requires Holds(slots, pos, q) && |q| < |slots|
    ensures Holds(slots[At(pos + |q|, |slots|) := x], pos, q + [x])
  {
    var n := |slots|;
    var filled := slots[At(pos + |q|, n) := x];
    forall i | 0 <= i <= |q| ensures filled[At(pos + i, n)] == (q + [x])[i] {
      if i < |q| {
        RemaindersDiffer(pos + i, pos + |q|, n);
        hide At;
      }
    }
  }

  lemma PopKeeps<T>(slots: seq<T>, pos: nat, q: seq<T>)
    requires Holds(slots, pos, q) && q != []
    ensures slots[At(pos, |slots|)] == q[0] && Holds(slots, pos + 1, q[1..])
  {
    hide At;
    assert slots[At(pos + 0, |slots|)] == q[0];
    forall i | 0 <= i < |q| - 1 ensures slots[At(pos + 1 + i, |slots|)] == q[1..][i] {
      assert slots[At(pos + (i + 1), |slots|)] == q[i + 1];
    }
  }

  /** The slot that has just been left is written again only when a full ring has been posted
      behind it. */
  lemma LeftSlotDiffers(pos: nat, len: nat, n: nat)
    requires n > 0
    ensures len + 1 < n ==> At(pos + 1 + len, n) != At(pos, n)
    ensures len + 1 == n ==> At(pos + 1 + len, n) == At(pos, n)
  {
    if len + 1 < n {
      RemaindersDiffer(pos, pos + 1 + len, n);
    } else if len + 1 == n {
      var a := pos / n;
      assert n * (a + 1) == n * a + n;
      Quotient(pos + n, n, a + 1, pos % n);
    }
  }

  /** The producer writes `xs` behind a queue of `len` entries. */
  function PostAll<T>(slots: seq<T>, pos: nat, len: nat, xs: seq<T>): (r: seq<T>)
    requires slots != []
    ensures |r| == |slots|
    decreases |xs|
  {
    if xs == [] then slots
    else
      var k := |xs| - 1;
      PostAll(slots, pos, len, xs[..k])[At(pos + len + k, |slots|) := xs[k]]
  }

  /** A consumer that leaves the head slot and reads it afterwards finds what it held, unless the
      producer has filled the ring meanwhile: then it finds the newest entry.  In every ring that is
      neither empty nor full the producer can. */
  lemma {:induction false} LeftSlotAfter<T>(slots: seq<T>, pos: nat, q: seq<T>, xs: seq<T>)
    requires Holds(slots, pos, q) && 0 < |q| < |slots| && |q| - 1 + |xs| <= |slots|
    ensures var left := PostAll(slots, pos + 1, |q| - 1, xs);
            && Holds(left, pos + 1, q[1..] + xs)
            && left[At(pos, |slots|)] == (if |q| - 1 + |xs| == |slots| then xs[|xs| - 1] else q[0])
    decreases |xs|
  {
    PopKeeps(slots, pos, q);
    hide Holds, At;
    if xs == [] {
      assert q[1..] + xs == q[1..];
    } else {
      var k := |xs| - 1;
      var left := PostAll(slots, pos + 1, |q| - 1, xs[..k]);
      LeftSlotAfter(slots, pos, q, xs[..k]);
      PostKeeps(left, pos + 1, q[1..] + xs[..k], xs[k]);
      assert q[1..] + xs[..k] + [xs[k]] == q[1..] + xs;
      assert pos + 1 + |q[1..] + xs[..k]| == pos + 1 + (|q| - 1) + k;
      LeftSlotDiffers(pos, |q| - 1 + k, |slots|);
    }
  }
}
