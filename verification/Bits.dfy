/**
 Bit operations on natural numbers, defined bit by bit, with the arithmetic
 facts the kernel's shift-and-mask expressions rely on.
 */
module Bits {

  function Pow2(k: nat): (p: nat)
    ensures p >= 1
  {
    if k == 0 then 1 else 2 * Pow2(k - 1)
  }

  /** n is 1, 2, 4, 8, ... */
  predicate IsPow2(n: int)
    decreases n
  {
    n == 1 || (n > 1 && n % 2 == 0 && IsPow2(n / 2))
  }

  function Or(a: nat, b: nat): nat
    decreases a + b
  {
    if a == 0 then b
    else if b == 0 then a
    else 2 * Or(a / 2, b / 2) + (if a % 2 == 1 || b % 2 == 1 then 1 else 0)
  }

  function And(a: nat, b: nat): nat
    decreases a + b
  {
    if a == 0 || b == 0 then 0
    else 2 * And(a / 2, b / 2) + (if a % 2 == 1 && b % 2 == 1 then 1 else 0)
  }

  // ----- powers of two

  lemma {:induction false} Pow2IsPow2(k: nat)
    ensures IsPow2(Pow2(k))
  {
    if k > 0 {
      Pow2IsPow2(k - 1);
    }
  }

  /** Two powers of two are equal, or one is at most half of the other. */
  lemma {:induction false} Pow2Gap(s: int, t: int)
    requires IsPow2(s) && IsPow2(t) && s < t
    ensures s <= t / 2 && t % 2 == 0
  {
    if s > 1 {
      Pow2Gap(s / 2, t / 2);
    }
  }

  // ----- one bit at a time

  lemma OrStep(a: nat, b: nat)
    ensures Or(a, b) / 2 == Or(a / 2, b / 2)
    ensures Or(a, b) % 2 == (if a % 2 == 1 || b % 2 == 1 then 1 else 0)
  {
  }

  lemma AndStep(a: nat, b: nat)
    ensures And(a, b) / 2 == And(a / 2, b / 2)
    ensures And(a, b) % 2 == (if a % 2 == 1 && b % 2 == 1 then 1 else 0)
  {
  }

  lemma {:induction false} OrComm(a: nat, b: nat)
    ensures Or(a, b) == Or(b, a)
    decreases a + b
  {
    if a > 0 && b > 0 {
      OrComm(a / 2, b / 2);
    }
  }

  lemma {:induction false} AndSelf(a: nat)
    ensures And(a, a) == a
  {
    if a > 0 {
      AndSelf(a / 2);
    }
  }

  // ----- IS_POWER_OF_2 and fixSize (kernel/heap.c:15, 36-46)

  /** The macro IS_POWER_OF_2: (x & (x - 1)) is zero. */
  predicate IsPowerOf2Macro(x: nat)
    requires x >= 1
  {
    And(x, x - 1) == 0
  }

  lemma {:induction false} MacroMeansPow2(x: nat)
    requires x >= 1
    ensures IsPowerOf2Macro(x) <==> IsPow2(x)
  {
    AndStep(x, x - 1);
    if x % 2 == 1 {
      assert (x - 1) / 2 == x / 2;
      AndSelf(x / 2);
    } else {
      assert (x - 1) / 2 == x / 2 - 1;
      MacroMeansPow2(x / 2);
    }
  }

  /** n >> k, one bit at a time. */
  function Shr(n: nat, k: nat): nat
    decreases k
  {
    if k == 0 then n else Shr(n / 2, k - 1)
  }

  /** One line of fixSize: n |= n >> k. */
  function Smear(n: nat, k: nat): nat {
    Or(n, Shr(n, k))
  }

  /** The first k smearing lines of fixSize, by 1, 2, 4, ... */
  function SmearLines(n: nat, k: nat): nat {
    if k == 0 then n else Smear(SmearLines(n, k - 1), Pow2(k - 1))
  }

  /** fixSize as written: n = size - 1, five smearing lines, n + 1. */
  function FixSize(size: nat): nat
    requires size >= 1
  {
    SmearLines(size - 1, 5) + 1
  }

  lemma {:induction false} ShrHalf(n: nat, k: nat)
    ensures Shr(n, k) / 2 == Shr(n / 2, k)
    decreases k
  {
    if k > 0 {
      ShrHalf(n / 2, k - 1);
    }
  }

  lemma {:induction false} SmearHalf(n: nat, k: nat)
    ensures Smear(n, k) / 2 == Smear(n / 2, k)
  {
    OrStep(n, Shr(n, k));
    ShrHalf(n, k);
  }

  lemma {:induction false} SmearShr(n: nat, k: nat, j: nat)
    ensures Shr(Smear(n, k), j) == Smear(Shr(n, j), k)
    decreases j
  {
    if j > 0 {
      SmearHalf(n, k);
      SmearShr(n / 2, k, j - 1);
    }
  }

  lemma {:induction false} LinesHalf(n: nat, k: nat)
    ensures SmearLines(n, k) / 2 == SmearLines(n / 2, k)
    decreases k
  {
    if k > 0 {
      SmearHalf(SmearLines(n, k - 1), Pow2(k - 1));
      LinesHalf(n, k - 1);
    }
  }

  lemma {:induction false} LinesShr(n: nat, k: nat, j: nat)
    ensures Shr(SmearLines(n, k), j) == SmearLines(Shr(n, j), k)
    decreases k
  {
    if k > 0 {
      SmearShr(SmearLines(n, k - 1), Pow2(k - 1), j);
      LinesShr(n, k - 1, j);
    }
  }

  /** Some bit below position k is set. */
  predicate LowBit(n: nat, k: nat)
    decreases k
  {
    k > 0 && (n % 2 == 1 || LowBit(n / 2, k - 1))
  }

  lemma {:induction false} LowBitSplit(n: nat, j: nat, k: nat)
    ensures LowBit(n, j + k) <==> LowBit(n, j) || LowBit(Shr(n, j), k)
    decreases j
  {
    if j > 0 {
      LowBitSplit(n / 2, j - 1, k);
    }
  }

  lemma {:induction false} NoLowBit(n: nat, k: nat)
    requires n < Pow2(k) && !LowBit(n, k)
    ensures n == 0
    decreases k
  {
    if k > 0 {
      NoLowBit(n / 2, k - 1);
    }
  }

  /** After k smearing lines the lowest bit collects the lowest 2^k bits. */
  lemma {:induction false} LinesLow(n: nat, k: nat)
    ensures SmearLines(n, k) % 2 == 1 <==> LowBit(n, Pow2(k))
    decreases k
  {
    if k > 0 {
      var p := Pow2(k - 1);
      OrStep(SmearLines(n, k - 1), Shr(SmearLines(n, k - 1), p));
      LinesShr(n, k - 1, p);
      LinesLow(n, k - 1);
      LinesLow(Shr(n, p), k - 1);
      LowBitSplit(n, p, p);
    }
  }

  lemma Pow2Of32()
    ensures Pow2(5) == 32 && Pow2(32) == 0x1_0000_0000
  {
    assert Pow2(8) == 256;
    assert Pow2(12) == 4096;
    assert Pow2(16) == 65536;
    assert Pow2(20) == 0x10_0000;
    assert Pow2(24) == 0x100_0000;
    assert Pow2(28) == 0x1000_0000;
  }

  lemma SmearStep(n: nat, k: nat)
    requires 0 < n < 0x1_0000_0000 && Pow2(k) == 32
    ensures SmearLines(n, k) == 2 * SmearLines(n / 2, k) + 1
  {
    LinesHalf(n, k);
    LinesLow(n, k);
    Pow2Of32();
    if !LowBit(n, 32) {
      NoLowBit(n, 32);
    }
  }

  /** m is one less than the least power of two above n. */
  predicate Fills(n: nat, m: nat) {
    IsPow2(m + 1) && n <= m && (if n == 0 then m == 0 else (m + 1) / 2 <= n)
  }

  /** Smearing fills every bit below the top one. */
  lemma {:induction false} SmearFills(n: nat, k: nat)
    requires n < 0x1_0000_0000 && Pow2(k) == 32
    ensures Fills(n, SmearLines(n, k))
  {
    if n > 0 {
      SmearFills(n / 2, k);
      SmearStep(n, k);
      FillsStep(n, SmearLines(n / 2, k));
    } else {
      ZeroLines(k);
    }
  }

  lemma {:induction false} ZeroLines(k: nat)
    ensures SmearLines(0, k) == 0
  {
    if k > 0 {
      ZeroLines(k - 1);
      ZeroShr(Pow2(k - 1));
    }
  }

  lemma {:induction false} ZeroShr(k: nat)
    ensures Shr(0, k) == 0
  {
    if k > 0 {
      ZeroShr(k - 1);
    }
  }

  lemma FillsStep(n: nat, m: nat)
    requires n > 0 && Fills(n / 2, m)
    ensures Fills(n, 2 * m + 1)
  {
    assert (2 * m + 2) / 2 == m + 1;
    if n > 1 {
      assert (m + 1) % 2 == 0;
    }
  }

  /** fixSize returns the least power of two that is at least its argument. */
  lemma FixSizeIsCeiling(size: nat, t: int)
    requires 1 <= size <= 0x1_0000_0000
    ensures IsPow2(FixSize(size)) && size <= FixSize(size)
    ensures IsPow2(t) && size <= t ==> FixSize(size) <= t
  {
    SmearFills(size - 1, 5);
    if IsPow2(t) && size <= t < FixSize(size) {
      Pow2Gap(t, FixSize(size));
    }
  }

  /** On a power of two fixSize is the identity, so skipping it there changes nothing. */
  lemma FixSizeOfPow2(size: nat)
    requires 1 <= size <= 0x1_0000_0000 && IsPow2(size)
    ensures FixSize(size) == size
  {
    FixSizeIsCeiling(size, size);
  }

  // ----- shifting left and or-ing into the cleared bits

  /** (x << k) | y, when y fits below the shift. */
  lemma {:induction false} OrDisjoint(x: nat, y: nat, k: nat)
    requires y < Pow2(k)
    ensures Or(x * Pow2(k), y) == x * Pow2(k) + y
    decreases k
  {
    if k > 0 {
      var p := Pow2(k - 1);
      assert x * Pow2(k) == 2 * (x * p);
      OrStep(x * Pow2(k), y);
      OrDisjoint(x, y / 2, k - 1);
    }
  }

  /** x & (2^k - 1) keeps the low k bits. */
  lemma {:induction false} AndLowMask(x: nat, k: nat)
    ensures And(x, Pow2(k) - 1) == x % Pow2(k)
    decreases k
  {
    if k > 0 {
      var p := Pow2(k - 1);
      AndStep(x, Pow2(k) - 1);
      assert (Pow2(k) - 1) / 2 == p - 1;
      AndLowMask(x / 2, k - 1);
      ModDouble(x, p);
    }
  }

  lemma ModDouble(x: nat, p: nat)
    requires p > 0
    ensures x % (2 * p) == 2 * ((x / 2) % p) + x % 2
  {
    var q := (x / 2) / p;
    var r := (x / 2) % p;
    assert x / 2 == q * p + r;
    assert x == q * (2 * p) + (2 * r + x % 2);
    DivUnique(x, 2 * p, q, 2 * r + x % 2);
  }

  lemma DivUnique(n: int, d: int, q: int, r: int)
    requires d > 0 && 0 <= r < d && n == q * d + r
    ensures n / d == q && n % d == r
  {
    var m := q - n / d;
    assert (n / d) * d == n - n % d;
    assert m * d == n % d - r by {
      assert m * d == q * d - (n / d) * d;
    }
    if m >= 1 {
      MulGe(m, d);
    } else if m <= -1 {
      MulGe(-m, d);
    }
  }

  lemma MulGe(m: int, d: int)
    requires m >= 1 && d > 0
    ensures m * d >= d
  {
  }

  // ----- shifting right and picking a field

  lemma {:induction false} ShrIsDiv(n: nat, k: nat)
    ensures Shr(n, k) == n / Pow2(k)
    decreases k
  {
    if k > 0 {
      ShrIsDiv(n / 2, k - 1);
      HalfDiv(n, Pow2(k - 1));
    }
  }

  lemma HalfDiv(n: nat, p: nat)
    requires p > 0
    ensures n / 2 / p == n / (2 * p)
  {
    var q, r := (n / 2) / p, (n / 2) % p;
    assert n / 2 == q * p + r;
    assert n == q * (2 * p) + (2 * r + n % 2);
    DivUnique(n, 2 * p, q, 2 * r + n % 2);
  }

  /** (x >> k) & (2^m - 1) */
  lemma FieldOf(x: nat, k: nat, m: nat)
    ensures And(Shr(x, k), Pow2(m) - 1) == x / Pow2(k) % Pow2(m)
  {
    ShrIsDiv(x, k);
    AndLowMask(Shr(x, k), m);
  }

  /** x & ((2^m - 1) << k) keeps bits k .. k+m in place. */
  lemma {:induction false} AndMidMask(x: nat, k: nat, m: nat)
    ensures (Pow2(m) - 1) * Pow2(k) >= 0
    ensures And(x, (Pow2(m) - 1) * Pow2(k)) == (x / Pow2(k) % Pow2(m)) * Pow2(k)
    decreases k
  {
    if k == 0 {
      AndLowMask(x, m);
    } else {
      var p, w := Pow2(k - 1), Pow2(m) - 1;
      Twice(w, p);
      AndStep(x, 2 * (w * p));
      AndMidMask(x / 2, k - 1, m);
      HalfDiv(x, p);
      Twice(x / Pow2(k) % Pow2(m), p);
    }
  }

  lemma Twice(a: nat, p: nat)
    ensures a * (2 * p) == 2 * (a * p) && a * p >= 0
  {
  }

  /** Bit i of c. */
  predicate Bit(c: nat, i: nat) {
    if i == 0 then c % 2 == 1 else Bit(c / 2, i - 1)
  }

  lemma {:induction false} BitOfOr(a: nat, b: nat, i: nat)
    ensures Bit(Or(a, b), i) <==> Bit(a, i) || Bit(b, i)
    decreases i
  {
    OrStep(a, b);
    if i > 0 {
      BitOfOr(a / 2, b / 2, i - 1);
    }
  }

  /** 1 << k has exactly bit k. */
  lemma {:induction false} BitOfPow2(k: nat, i: nat)
    ensures Bit(Pow2(k), i) <==> i == k
    decreases k
  {
    if k == 0 {
      ZeroBit(i);
    } else if i > 0 {
      BitOfPow2(k - 1, i - 1);
    }
  }

  lemma {:induction false} ZeroBit(i: nat)
    ensures !Bit(0, i) && (i > 0 ==> !Bit(1, i))
  {
    if i > 0 {
      ZeroBit(i - 1);
    }
  }

  lemma {:induction false} OrBound(a: nat, b: nat, n: nat)
    requires a < Pow2(n) && b < Pow2(n)
    ensures Or(a, b) < Pow2(n)
    decreases n
  {
    OrStep(a, b);
    if n > 0 {
      OrBound(a / 2, b / 2, n - 1);
    }
  }
}
