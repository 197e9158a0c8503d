/** Numbers read in digits of nine bits, as the four-level walk and the radix tree take them. */
module Digits {
  import opened Pages

  /** `v` without its last `k` digits: the prefix that a table `k` levels up stands for. */
  function Up(k: nat, v: nat): nat
    decreases k
  {
    if k == 0 then v else Up(k - 1, v) / FANOUT
  }

  /** Digit `k` of `v`, counted from 1: the slot that the walk for `v` reads at level `k`. */
  function Index(k: nat, v: nat): nat
    requires k >= 1
  {
    Up(k - 1, v) % FANOUT
  }

  /** The prefix below `prefix` for slot `i`. */
  function Sub(prefix: nat, i: nat): nat { prefix * FANOUT + i }
}
