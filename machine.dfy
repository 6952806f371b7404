/**
  Machine words of the RV64 target: Rust's `usize`, `isize` and `u32`, and the
  two bitwise operators the syscall layer uses on a `usize` (`&` and `!`).
  `&` is defined bit by bit on naturals, so that what a mask test means can
  be proved rather than taken on trust. `!` is computed in closed form,
  `2^64 - 1 - a`, and proved equal to the bit-by-bit complement `BitNot`.
 */
module Machine {

  const WORD_BITS: nat := 64
  const WORD_MODULUS: int := 0x1_0000_0000_0000_0000

  /** Rust `usize` on a 64-bit target. */
  newtype usize = x: int | 0 <= x < WORD_MODULUS

  /** Rust `isize` on a 64-bit target. */
  newtype isize = x: int | -0x8000_0000_0000_0000 <= x < 0x8000_0000_0000_0000

  /** Rust `u32`. */
  newtype u32 = x: int | 0 <= x < 0x1_0000_0000

  function Pow2(n: nat): (r: nat)
    ensures r >= 1
  {
    if n == 0 then 1 else 2 * Pow2(n - 1)
  }

  lemma {:induction false} Pow2Add(m: nat, n: nat)
    ensures Pow2(m + n) == Pow2(m) * Pow2(n)
  {
    if n > 0 {
      Pow2Add(m, n - 1);
      assert Pow2(m + n) == 2 * Pow2(m + n - 1);
    }
  }

  lemma Pow2Sixteen()
    ensures Pow2(16) == 0x1_0000
  {
    assert Pow2(4) == 16;
    assert Pow2(8) == 256 by { Pow2Add(4, 4); }
    assert Pow2(16) == 0x1_0000 by { Pow2Add(8, 8); }
  }

  lemma Pow2Word()
    ensures Pow2(WORD_BITS) == WORD_MODULUS
  {
    assert Pow2(32) == 0x1_0000_0000 by { Pow2Sixteen(); Pow2Add(16, 16); }
    assert Pow2(64) == WORD_MODULUS by { Pow2Add(32, 32); }
  }

  /** Bitwise AND of two naturals, one binary digit at a time. */
  function BitAnd(a: nat, b: nat): (r: nat)
    ensures r <= a && r <= b
    decreases a
  {
    if a == 0 || b == 0 then 0
    else 2 * BitAnd(a / 2, b / 2) + (if a % 2 == 1 && b % 2 == 1 then 1 else 0)
  }

  /** Bitwise complement of `a` taken as a `width`-bit number. */
  function BitNot(a: nat, width: nat): (r: nat)
    requires a < Pow2(width)
    ensures r < Pow2(width)
    ensures a + r == Pow2(width) - 1
    decreases width
  {
    if width == 0 then 0 else 2 * BitNot(a / 2, width - 1) + (1 - a % 2)
  }

  /** `a & b` on `usize`. */
  function And(a: usize, b: usize): (r: usize)
    ensures r <= a && r <= b
  {
    BitAnd(a as nat, b as nat) as usize
  }

  /** `!a` on `usize`: the complement of `a` within 64 bits. */
  function Not(a: usize): (r: usize)
    ensures a as int + r as int == WORD_MODULUS - 1
  {
    (WORD_MODULUS - 1 - a as int) as usize
  }

  /** `Not` flips every one of the 64 bits of its argument. */
  lemma NotFlipsEveryBit(a: usize)
    ensures Pow2(WORD_BITS) == WORD_MODULUS && Not(a) as nat == BitNot(a as nat, WORD_BITS)
  {
    Pow2Word();
  }

  /** `a - b` on `usize` as a release build computes it: modulo 2^64. */
  function WrappingSub(a: usize, b: usize): (r: usize)
    ensures b <= a ==> r as int == a as int - b as int
    ensures a < b ==> r as int == a as int - b as int + WORD_MODULUS
  {
    ((a as int - b as int) % WORD_MODULUS) as usize
  }

  /** A positive multiple of `d` is at least `d`. */
  lemma {:induction false} MulAtLeast(k: int, d: int)
    requires k >= 1 && d >= 1
    ensures k * d >= d
  {
    if k > 1 {
      MulAtLeast(k - 1, d);
      assert k * d == (k - 1) * d + d;
    }
  }

  /** Euclidean division is determined by any decomposition `x == q * d + r` with `0 <= r < d`. */
  lemma ModOfDecomposition(x: int, d: int, q: int, r: int)
    requires 0 <= r < d && x == q * d + r
    ensures x % d == r && x / d == q
  {
    var q', r' := x / d, x % d;
    assert (q' - q) * d == r - r';
    if q' > q {
      MulAtLeast(q' - q, d);
    } else if q' < q {
      assert (q - q') * d == r' - r;
      MulAtLeast(q - q', d);
    }
  }

  /** Splitting a remainder by an even modulus into its top bits and its lowest bit. */
  lemma ModDoubleSplit(x: nat, m: nat)
    requires m >= 1
    ensures x % (2 * m) == 2 * ((x / 2) % m) + x % 2
  {
    var q, s := (x / 2) / m, (x / 2) % m;
    assert x == (2 * m) * q + (2 * s + x % 2);
    ModOfDecomposition(x, 2 * m, q, 2 * s + x % 2);
  }

  /** `m` is a run of low one-bits, `2^k - 1` for some `k`. */
  predicate LowOnes(m: nat)
  {
    m == 0 || (m % 2 == 1 && LowOnes(m / 2))
  }

  /** `2^n - 1` is a run of `n` low one-bits. */
  lemma {:induction false} LowOnesPow2(n: nat)
    ensures LowOnes(Pow2(n) - 1)
  {
    if n > 0 {
      LowOnesPow2(n - 1);
      assert (Pow2(n) - 1) / 2 == Pow2(n - 1) - 1;
    }
  }

  /** The mask of the 61 bits of a word above its three lowest. */
  lemma LowOnes61()
    ensures LowOnes(0x1FFF_FFFF_FFFF_FFFF)
  {
    Pow2Word();
    Pow2Add(61, 3);
    LowOnesPow2(61);
  }

  /** A one lowest bit in the mask keeps the lowest bit of the value. */
  lemma BitAndOddMask(a: nat, b: nat)
    requires b % 2 == 1
    ensures BitAnd(a, b) == 2 * BitAnd(a / 2, b / 2) + a % 2
  {
  }

  /** A zero lowest bit in the mask clears the lowest bit of the result. */
  lemma BitAndEvenMask(a: nat, b: nat)
    requires b % 2 == 0
    ensures BitAnd(a, b) == 2 * BitAnd(a / 2, b / 2)
  {
  }

  /** Masking with a run of low one-bits keeps the value modulo one more than the mask. */
  lemma {:induction false} BitAndLowOnes(x: nat, m: nat)
    requires LowOnes(m)
    ensures BitAnd(x, m) == x % (m + 1)
  {
    if m > 0 {
      var h := m / 2;
      assert m + 1 == 2 * (h + 1);
      assert BitAnd(x, m) == 2 * BitAnd(x / 2, h) + x % 2 by { BitAndOddMask(x, m); }
      assert BitAnd(x / 2, h) == (x / 2) % (h + 1) by { BitAndLowOnes(x / 2, h); }
      assert 2 * ((x / 2) % (h + 1)) + x % 2 == x % (2 * (h + 1)) by { ModDoubleSplit(x, h + 1); }
    }
  }

  /** `p & 0x7` is the value of the three low bits of `p`. */
  lemma AndSeven(p: usize)
    ensures And(p, 7) as int == p as int % 8
  {
    BitAndLowOnes(p as nat, 7);
  }

  /** A mask whose three low bits are zero clears the three low bits of the result. */
  lemma BitAndMaskOfEight(x: nat, m: nat)
    requires m % 8 == 0
    ensures BitAnd(x, m) == 8 * BitAnd(x / 8, m / 8)
  {
    var x1: nat, m1: nat := x / 2, m / 2;
    var x2: nat, m2: nat := x1 / 2, m1 / 2;
    var x3: nat, m3: nat := x2 / 2, m2 / 2;
    assert m1 % 2 == 0 && m2 % 2 == 0;
    assert x3 == x / 8 && m3 == m / 8;
    assert BitAnd(x, m) == 2 * BitAnd(x1, m1) by { BitAndEvenMask(x, m); }
    assert BitAnd(x1, m1) == 2 * BitAnd(x2, m2) by { BitAndEvenMask(x1, m1); }
    assert BitAnd(x2, m2) == 2 * BitAnd(x3, m3) by { BitAndEvenMask(x2, m2); }
  }

  /** A value that fits in 61 bits passes unchanged through the 61-bit mask. */
  lemma BitAndLow61(y: nat)
    requires y <= 0x1FFF_FFFF_FFFF_FFFF
    ensures BitAnd(y, 0x1FFF_FFFF_FFFF_FFFF) == y
  {
    LowOnes61();
    BitAndLowOnes(y, 0x1FFF_FFFF_FFFF_FFFF);
  }

  /** Masking a word with all bits but the three lowest clears those three. */
  lemma BitAndHighMask(x: nat)
    requires x < WORD_MODULUS
    ensures BitAnd(x, WORD_MODULUS - 8) == x - x % 8
  {
    var m: nat := WORD_MODULUS - 8;
    var low: nat := 0x1FFF_FFFF_FFFF_FFFF;
    var y: nat := x / 8;
    assert m / 8 == low && y < low + 1;
    assert BitAnd(x, m) == 8 * BitAnd(y, low) by { BitAndMaskOfEight(x, m); }
    assert BitAnd(y, low) == y by { BitAndLow61(y); }
    assert 8 * y == x - x % 8;
  }

  /** `p & !0x7` is `p` with its three low bits cleared. */
  lemma AndNotSeven(p: usize)
    ensures And(p, Not(7)) as int == p as int - p as int % 8
  {
    assert Not(7) as int == WORD_MODULUS - 8;
    BitAndHighMask(p as nat);
  }
}
