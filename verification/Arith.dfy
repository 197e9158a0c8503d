/** Products, powers of two and remainders, as the index arithmetic of the kernel needs them. */
module Arith {
  function Min(x: nat, y: nat): nat { if x < y then x else y }

  function Max(x: nat, y: nat): nat { if x < y then y else x }

  lemma MulGap(e: nat, p: nat, q: nat)
    requires e * p < e * q
    ensures e * p + e <= e * q
  {
    if p < q { MulStep(e, p, q); } else if q < p { MulStep(e, q, p); }
  }

  lemma {:induction false} MulStep(e: nat, p: nat, q: nat)
    requires p < q
    ensures e * p + e <= e * q
    decreases q
  {
    if q > p + 1 { MulStep(e, p, q - 1); }
    assert e * q == e * (q - 1) + e;
  }

  /** A quotient and a remainder determine the remainder. */
  lemma DivUnique(x: nat, d: nat, q: nat, z: nat)
    requires x == d * q + z && z < d
    ensures x % d == z && x / d == q
  {
    var p, y := x / d, x % d;
    assert x == d * p + y && y < d;
    if p < q { MulStep(d, p, q); } else if q < p { MulStep(d, q, p); }
  }

  lemma MulAssoc(a: nat, b: nat, c: nat)
    ensures a * b * c == a * (b * c)
  {}

  lemma MulSum(a: nat, b: nat, c: nat)
    ensures a * (b + c) == a * b + a * c
  {}

  lemma DivMod(x: nat, d: nat)
    requires d > 0
    ensures x == d * (x / d) + x % d && x % d < d
  {}

  /** A remainder by a multiple of `d` has the same remainder by `d`. */
  lemma ModOfMod(x: nat, d: nat, m: nat, e: nat)
    requires d > 0 && e > 0 && e == d * m
    ensures x % e % d == x % d
  {
    DivMod(x, e);
    DivMod(x % e, d);
    SameRemainder(x, d, m, x / e, x % e / d, x % e % d);
  }

  lemma SameRemainder(x: nat, d: nat, m: nat, q: nat, p: nat, z: nat)
    requires x == d * m * q + (d * p + z) && z < d
    ensures x % d == z
  {
    MulAssoc(d, m, q);
    MulSum(d, m * q, p);
    DivUnique(x, d, m * q + p, z);
  }

  /** `x` taken back into [0, c) when it is below 2c. */
  function Wrap(x: nat, c: nat): nat { if x < c then x else x - c }

  lemma ModAdd(x: nat, k: nat, c: nat)
    requires c > 0 && k <= c
    ensures (x + k) % c == Wrap(x % c + k, c)
  {
    var q, z := x / c, x % c;
    assert x == c * q + z;
    if z + k < c {
      DivUnique(x + k, c, q, z + k);
    } else {
      assert c * (q + 1) == c * q + c;
      DivUnique(x + k, c, q + 1, z + k - c);
    }
  }

  /** Two positions at most `w` apart are told apart by their remainders by `w`. */
  lemma Gap(t: nat, n: nat, w: nat)
    requires n < w
    ensures t % w < w && (t + n) % w < w
    ensures (if (t + n) % w >= t % w then (t + n) % w - t % w else (t + n) % w + w - t % w) == n
    ensures (t % w + n) % w == (t + n) % w
  {
    var y := t % w;
    DivMod(t, w);
    ModAdd(t, n, w);
    if y + n < w { DivUnique(y + n, w, 0, y + n); } else { DivUnique(y + n, w, 1, y + n - w); }
  }

  function Pow2(k: nat): (p: nat)
    ensures p >= 1
  {
    if k == 0 then 1 else 2 * Pow2(k - 1)
  }

  lemma {:induction false} Pow2Sum(j: nat, k: nat)
    ensures Pow2(j) * Pow2(k) == Pow2(j + k)
  {
    if k > 0 {
      Pow2Sum(j, k - 1);
      Doubled(Pow2(j), Pow2(k - 1));
    }
  }

  lemma Doubled(a: nat, b: nat)
    ensures a * (2 * b) == 2 * (a * b)
  {}

  /** Bitwise and of two numbers. */
  function BitAnd(x: nat, y: nat): nat {
    if x == 0 || y == 0 then 0 else (x % 2) * (y % 2) + 2 * BitAnd(x / 2, y / 2)
  }

  /** KMOD_FAST: masking with `n - 1` is the remainder by `n` when `n` is a power of two. */
  lemma {:induction false} MaskMod(x: nat, k: nat)
    ensures BitAnd(x, Pow2(k) - 1) == x % Pow2(k)
    decreases k
  {
    hide BitAnd;
    if k == 0 {
      AndZero(x);
    } else {
      MaskMod(x / 2, k - 1);
      AndOdd(x, Pow2(k - 1));
      OneBit(x, Pow2(k - 1));
    }
  }

  lemma AndZero(x: nat)
    ensures BitAnd(x, 0) == 0
  {}

  lemma AndOdd(x: nat, d: nat)
    requires d > 0
    ensures BitAnd(x, 2 * d - 1) == x % 2 + 2 * BitAnd(x / 2, d - 1)
  {
    assert (2 * d - 1) / 2 == d - 1 && (2 * d - 1) % 2 == 1;
  }

  lemma OneBit(x: nat, d: nat)
    requires d > 0
    ensures x % (2 * d) == x % 2 + 2 * (x / 2 % d)
  {
    var h := x / 2;
    var q, z := h / d, h % d;
    DivMod(h, d);
    MulAssoc(2, d, q);
    DivUnique(x, 2 * d, q, 2 * z + x % 2);
  }

  /** `x >> b`. */
  function Shr(x: nat, b: nat): nat { if b == 0 then x else Shr(x, b - 1) / 2 }

  lemma ThreeHalves(x: nat, b: nat)
    ensures Shr(x, b + 3) == Shr(x, b) / 8
  {
    assert Shr(x, b + 1) == Shr(x, b) / 2;
    assert Shr(x, b + 2) == Shr(x, b + 1) / 2;
    assert Shr(x, b + 3) == Shr(x, b + 2) / 2;
  }

  lemma NineHalves(x: nat, b: nat)
    ensures Shr(x, b + 9) == Shr(x, b) / 512
  {
    hide Shr;
    ThreeHalves(x, b);
    ThreeHalves(x, b + 3);
    ThreeHalves(x, b + 6);
  }

  lemma {:induction false} ShrFirst(x: nat, b: nat)
    requires b > 0
    ensures Shr(x, b) == Shr(x / 2, b - 1)
  {
    if b > 1 { ShrFirst(x, b - 1); }
  }

  lemma AndEven(x: nat, y: nat)
    ensures BitAnd(x, 2 * y) == 2 * BitAnd(x / 2, y)
  {}

  /** Masking a field and shifting it down is shifting down and masking. */
  lemma {:induction false} MaskShift(x: nat, m: nat, k: nat)
    ensures Shr(BitAnd(x, m * Pow2(k)), k) == BitAnd(Shr(x, k), m)
    decreases k
  {
    hide BitAnd;
    if k > 0 {
      Doubled(m, Pow2(k - 1));
      AndEven(x, m * Pow2(k - 1));
      MaskShift(x / 2, m, k - 1);
      ShrFirst(x, k);
      ShrFirst(BitAnd(x, m * Pow2(k)), k);
    }
  }

  lemma ZeroAnd(y: nat)
    ensures BitAnd(0, y) == 0
  {}

  lemma {:induction false} AndSelf(x: nat)
    ensures BitAnd(x, x) == x
  {
    if x > 0 { AndSelf(x / 2); }
  }

  lemma {:induction false} Pow2Grows(j: nat, k: nat)
    requires j < k
    ensures Pow2(j) < Pow2(k)
    decreases k
  {
    if j < k - 1 { Pow2Grows(j, k - 1); }
  }

  /** A number that shares no bit with its predecessor is a power of two. */
  lemma {:induction false} OneBitSet(c: nat)
    requires c > 0
    ensures BitAnd(c, c - 1) == 0 ==> exists k: nat :: c == Pow2(k)
  {
    var h := c / 2;
    if c == 1 {
      assert c == Pow2(0);
    } else if c % 2 == 0 {
      assert (c - 1) / 2 == h - 1;
      OneBitSet(h);
      if BitAnd(h, h - 1) == 0 {
        var j: nat :| h == Pow2(j);
        assert c == Pow2(j + 1);
      }
    } else {
      assert (c - 1) / 2 == h;
      AndSelf(h);
    }
  }
}
