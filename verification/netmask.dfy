/** Netmasks and prefix lengths. */
module Netmask {
  import opened Bytes
  import opened Powers

  /** The ones among the `k` low bits of `n`. */
  function CountOnes(n: nat, k: nat): (r: nat)
    requires n < Pow2(k)
    ensures r <= k
  {
    if k == 0 then 0
    else if n >= Pow2(k - 1) then 1 + CountOnes(n - Pow2(k - 1), k - 1)
    else CountOnes(n, k - 1)
  }

  /** The ones at the top of the `k` low bits of `n`. */
  function LeadingOnes(n: nat, k: nat): (r: nat)
    requires n < Pow2(k)
    ensures r <= k
  {
    if k == 0 || n < Pow2(k - 1) then 0 else 1 + LeadingOnes(n - Pow2(k - 1), k - 1)
  }

  /** A mask with a hole in it falls back to 24. */
  function MaskToPrefixLen(mask: u32): (r: nat)
    ensures r <= 32
  {
    Pow2Values();
    if LeadingOnes(mask, 32) == CountOnes(mask, 32) then CountOnes(mask, 32) else 24
  }

  /** The mask of the networks with that prefix length. */
  function PrefixToMask(p: nat): (r: u32)
    requires p <= 32
  {
    Pow2Values();
    Pow2Grows(32 - p, 32);
    Pow2(32) - Pow2(32 - p)
  }

  lemma {:induction false} NoOnes(n: nat, k: nat)
    requires n < Pow2(k)
    ensures CountOnes(n, k) == 0 <==> n == 0
  {
    if k > 0 && n < Pow2(k - 1) {
      NoOnes(n, k - 1);
    }
  }

  /** The ones are all at the top exactly when the number is that of `p` ones followed by zeros. */
  lemma {:induction false} Contiguous(n: nat, k: nat, p: nat)
    requires n < Pow2(k) && p <= k
    ensures LeadingOnes(n, k) == CountOnes(n, k) == p <==> n == Pow2(k) - Pow2(k - p)
  {
    if k > 0 {
      var half := Pow2(k - 1);
      assert Pow2(k) == 2 * half;
      if n < half {
        NoOnes(n, k);
        if p > 0 {
          Pow2Grows(k - p, k - 1);
        }
      } else if p == 0 {
        assert CountOnes(n, k) > 0;
      } else {
        Contiguous(n - half, k - 1, p - 1);
      }
    }
  }

  /** The prefix length inverts the mask on the contiguous masks, and is 24 for every other. */
  lemma PrefixInvertsMask(mask: u32)
    ensures forall p: nat :: p <= 32 && mask == PrefixToMask(p) ==> MaskToPrefixLen(mask) == p
    ensures (forall p: nat :: p <= 32 ==> mask != PrefixToMask(p)) ==> MaskToPrefixLen(mask) == 24
    ensures MaskToPrefixLen(mask) != 24 ==> mask == PrefixToMask(MaskToPrefixLen(mask))
  {
    Pow2Values();
    forall p: nat | p <= 32
      ensures mask == PrefixToMask(p) <==> LeadingOnes(mask, 32) == CountOnes(mask, 32) == p
    {
      Contiguous(mask, 32, p);
    }
    hide LeadingOnes, CountOnes, PrefixToMask;
    assert mask == PrefixToMask(CountOnes(mask, 32)) <==> LeadingOnes(mask, 32) == CountOnes(mask, 32);
  }
}
