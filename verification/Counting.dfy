/** Counting the flagged positions of a sequence. */
module Counting {
  function Count(bs: seq<bool>): (n: nat)
    ensures n <= |bs|
  {
    if bs == [] then 0 else (if bs[0] then 1 else 0) + Count(bs[1..])
  }

  lemma {:induction false} CountUpdate(bs: seq<bool>, i: nat, b: bool)
    requires i < |bs|
    ensures Count(bs[i := b]) == Count(bs) + (if b then 1 else 0) - (if bs[i] then 1 else 0)
  {
    var cs := bs[i := b];
    if i == 0 {
      assert cs[1..] == bs[1..];
    } else {
      assert cs[1..] == bs[1..][i - 1 := b];
      CountUpdate(bs[1..], i - 1, b);
    }
  }

  lemma {:induction false} CountAppend(bs: seq<bool>, b: bool)
    ensures Count(bs + [b]) == Count(bs) + (if b then 1 else 0)
  {
    if bs != [] {
      assert (bs + [b])[1..] == bs[1..] + [b];
      CountAppend(bs[1..], b);
    }
  }

  /** The count reaches its two extremes only when all positions agree. */
  lemma {:induction false} CountExtremes(bs: seq<bool>)
    ensures Count(bs) == 0 <==> forall i :: 0 <= i < |bs| ==> !bs[i]
    ensures Count(bs) == |bs| <==> forall i :: 0 <= i < |bs| ==> bs[i]
  {
    if bs != [] {
      CountExtremes(bs[1..]);
      assert forall i :: 0 < i < |bs| ==> bs[i] == bs[1..][i - 1];
      assert forall i :: 0 <= i < |bs| - 1 ==> bs[1..][i] == bs[i + 1];
    }
  }
}
