/** Retransmission: the same frame put on the wire again and again. */
module Resend {

  /** `k` copies of one value: what `k` transmissions of one frame put on the wire. */
  function Copies<T>(x: T, k: nat): (r: seq<T>)
    ensures |r| == k
  {
    if k == 0 then [] else [x] + Copies(x, k - 1)
  }

  /** Every element of `Copies(x, k)` is `x`. */
  lemma {:induction false} CopiesAreCopies<T>(x: T, k: nat)
    ensures forall i :: 0 <= i < k ==> Copies(x, k)[i] == x
  {
    if k > 0 {
      CopiesAreCopies(x, k - 1);
    }
  }

  /** One more copy may go at either end. */
  lemma {:induction false} CopiesSnoc<T>(x: T, k: nat)
    ensures Copies(x, k) + [x] == Copies(x, k + 1)
  {
    if k > 0 {
      CopiesSnoc(x, k - 1);
      assert Copies(x, k) + [x] == [x] + (Copies(x, k - 1) + [x]);
    }
  }
}
