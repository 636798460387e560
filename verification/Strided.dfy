/** Frames at a fixed distance in a flat buffer. */
module Strided {
  import opened Arith

  /** Where frame i starts when frames are `stride` bytes apart. */
  function Start(i: nat, stride: nat): (at: nat) {
    MulAssoc(i, stride, 1);
    i * stride
  }

  lemma StartOrder(i: nat, n: nat, stride: nat)
    ensures i < n ==> Start(i, stride) + stride <= Start(n, stride)
    ensures i <= n ==> Start(i, stride) <= Start(n, stride)
  {
    if i < n {
      MulDist(n - i - 1, i + 1, stride);
      MulDist(i, 1, stride);
      assert (n - i - 1) * stride >= 0;
    }
  }

  lemma StartNext(i: nat, stride: nat)
    ensures Start(0, stride) == 0 && Start(i + 1, stride) == Start(i, stride) + stride
  {
    MulDist(i, 1, stride);
  }

  lemma StartSum(i: nat, j: nat, stride: nat)
    ensures Start(i + j, stride) == Start(i, stride) + Start(j, stride)
  {
    MulDist(i, j, stride);
  }

  /** No frame of the given width covers offset x. */
  ghost predicate Between(x: nat, n: nat, stride: nat, width: nat) {
    forall i: nat :: i < n ==> !(Start(i, stride) <= x < Start(i, stride) + width)
  }
}
