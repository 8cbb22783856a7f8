/** 64-bit machine words as bounded integers, with the wrap-around arithmetic and
    the bitwise operators of C's `u64`. */
module Words {

  const MOD64: int := 0x1_0000_0000_0000_0000

  type Word = x: int | 0 <= x < 0x1_0000_0000_0000_0000

  /** `a + b` on `u64`; WrapAround shows it is the sum modulo 2^64. */
  function Add(a: Word, b: Word): Word {
    if a + b < MOD64 then a + b else a + b - MOD64
  }

  /** `a - b` on `u64`. */
  function Sub(a: Word, b: Word): Word {
    if a >= b then a - b else a - b + MOD64
  }

  /** `(u64)(int32_t)raw`: the low 32 bits, sign-extended. */
  function SignExtend32(raw: Word): Word {
    var low := raw % 0x1_0000_0000;
    if low < 0x8000_0000 then low else low + MOD64 - 0x1_0000_0000
  }

  lemma WrapAround(a: Word, b: Word)
    ensures Add(a, b) == (a + b) % MOD64
    ensures Sub(a, b) == (a - b) % MOD64
  {
    if a + b >= MOD64 {
      assert (a + b - MOD64) % MOD64 == (a + b) % MOD64;
    }
    if a < b {
      assert (a - b + MOD64) % MOD64 == (a - b) % MOD64;
    }
  }

  /** Sign extension keeps the low 32 bits and lands within 2^31 of zero, and no other word does. */
  lemma SignExtendIff(raw: Word, r: Word)
    ensures r == SignExtend32(raw) <==>
              && r % 0x1_0000_0000 == raw % 0x1_0000_0000
              && (r < 0x8000_0000 || r >= MOD64 - 0x8000_0000)
  {
  }

  /** Moving between the virtual and the physical domain loses nothing, even across a wrap. */
  lemma DomainLaws(a: Word, b: Word, c: Word)
    ensures Add(Sub(a, b), b) == a && Sub(Add(a, b), b) == a && Add(b, Sub(a, b)) == a
    ensures Sub(Sub(a, b), c) == Sub(a, Add(c, b))
    ensures Add(Add(a, b), c) == Add(Add(a, c), b)
  {
  }

  function Pow2(k: nat): (p: nat)
    ensures p >= 1
  {
    if k == 0 then 1 else 2 * Pow2(k - 1)
  }

  /** Bitwise `a & b`. */
  function And(a: nat, b: nat): nat
    decreases a
  {
    if a == 0 then 0
    else (if a % 2 == 1 && b % 2 == 1 then 1 else 0) + 2 * And(a / 2, b / 2)
  }

  /** Bitwise `a | b`. */
  function Or(a: nat, b: nat): nat
    decreases a
  {
    if a == 0 then b
    else (if a % 2 == 1 || b % 2 == 1 then 1 else 0) + 2 * Or(a / 2, b / 2)
  }

  /** Bitwise `a ^ b`. */
  function Xor(a: nat, b: nat): nat
    decreases a + b
  {
    if a == 0 then b
    else (if a % 2 != b % 2 then 1 else 0) + 2 * Xor(a / 2, b / 2)
  }

  /** `a << k` without truncation. */
  function Shl(a: nat, k: nat): nat {
    if k == 0 then a else 2 * Shl(a, k - 1)
  }

  /** `a >> k`. */
  function High(a: nat, k: nat): nat {
    if k == 0 then a else High(a / 2, k - 1)
  }

  /** The k low bits of `a`. */
  function Low(a: nat, k: nat): (r: nat)
    ensures r < Pow2(k)
  {
    if k == 0 then 0 else a % 2 + 2 * Low(a / 2, k - 1)
  }

  /** Cutting a number at bit k loses nothing. */
  lemma {:induction false} CutAt(a: nat, k: nat)
    ensures a == Shl(High(a, k), k) + Low(a, k)
  {
    if k > 0 {
      CutAt(a / 2, k - 1);
    }
  }

  lemma AndStep(a: nat, b: nat, x: nat, y: nat, i: nat, j: nat)
    requires a == i + 2 * x && b == j + 2 * y && i < 2 && j < 2
    ensures And(a, b) == (if i == 1 && j == 1 then 1 else 0) + 2 * And(x, y)
  {
    assert a / 2 == x && b / 2 == y && a % 2 == i && b % 2 == j;
  }

  lemma OrStep(a: nat, b: nat, x: nat, y: nat, i: nat, j: nat)
    requires a == i + 2 * x && b == j + 2 * y && i < 2 && j < 2
    ensures Or(a, b) == (if i == 1 || j == 1 then 1 else 0) + 2 * Or(x, y)
  {
    assert a / 2 == x && b / 2 == y && a % 2 == i && b % 2 == j;
  }

  lemma Zeros(a: nat)
    ensures Or(a, 0) == a && And(a, 0) == 0
  {
  }

  /** Masking with the k low ones keeps the k low bits. */
  lemma {:induction false} AndLowMask(a: nat, k: nat)
    ensures And(a, Pow2(k) - 1) == Low(a, k)
    decreases k
  {
    Zeros(a);
    if k > 0 {
      AndLowMask(a / 2, k - 1);
      AndStep(a, Pow2(k) - 1, a / 2, Pow2(k - 1) - 1, a % 2, 1);
    }
  }

  /** A mask shifted up by k only sees the bits from k up. */
  lemma {:induction false} AndShifted(a: nat, mask: nat, k: nat)
    ensures And(a, Shl(mask, k)) == Shl(And(High(a, k), mask), k)
    decreases k
  {
    if k > 0 {
      AndShifted(a / 2, mask, k - 1);
      AndStep(a, Shl(mask, k), a / 2, Shl(mask, k - 1), a % 2, 0);
    }
  }

  /** Setting bits below bit k leaves the bits from k up. */
  lemma {:induction false} OrLow(hi: nat, lo: nat, flags: nat, k: nat)
    requires lo < Pow2(k) && flags < Pow2(k)
    ensures Or(Shl(hi, k) + lo, flags) == Shl(hi, k) + Or(lo, flags)
    decreases k
  {
    if k == 0 {
      Zeros(hi);
    } else {
      var l, f, h := lo / 2, flags / 2, Shl(hi, k - 1);
      OrLow(hi, l, f, k - 1);
      OrStep(2 * h + lo, flags, h + l, f, lo % 2, flags % 2);
      OrStep(lo, flags, l, f, lo % 2, flags % 2);
    }
  }

  /** Setting bits from bit k up of a number below 2^k. */
  lemma {:induction false} OrHigh(lo: nat, flags: nat, k: nat)
    requires lo < Pow2(k)
    ensures Or(lo, Shl(flags, k)) == Shl(flags, k) + lo
    decreases k
  {
    if k > 0 {
      OrHigh(lo / 2, flags, k - 1);
      OrStep(lo, Shl(flags, k), lo / 2, Shl(flags, k - 1), lo % 2, 0);
    }
  }

  /** A shift by k multiplies by p = 2^k. */
  lemma {:induction false} Scale(a: nat, k: nat, p: nat)
    requires p == Pow2(k)
    ensures Shl(a, k) == a * p
  {
    if k > 0 {
      Scale(a, k - 1, Pow2(k - 1));
      MulTwice(a, Pow2(k - 1));
    }
  }

  lemma MulTwice(x: int, p: int)
    ensures x * (2 * p) == 2 * (x * p)
  {
  }

  lemma {:induction false} PowSum(i: nat, j: nat)
    ensures Pow2(i + j) == Shl(Pow2(j), i)
  {
    if i > 0 {
      PowSum(i - 1, j);
    }
  }

  lemma Powers()
    ensures Pow2(0) == 1 && Pow2(2) == 4 && Pow2(6) == 0x40 && Pow2(7) == 0x80 && Pow2(8) == 0x100
    ensures Pow2(9) == 0x200 && Pow2(10) == 0x400 && Pow2(12) == 0x1000
    ensures Pow2(36) == 0x10_0000_0000
    ensures Pow2(48) == 0x1_0000_0000_0000
    ensures Pow2(52) == 0x10_0000_0000_0000
  {
    assert Pow2(9) == 0x200 && Pow2(12) == 0x1000;
    PowSum(12, 12);
    Scale(0x1000, 12, 0x1000);
    PowSum(12, 24);
    Scale(Pow2(24), 12, 0x1000);
    PowSum(12, 36);
    Scale(Pow2(36), 12, 0x1000);
    PowSum(4, 48);
    assert Pow2(4) == 16;
    Scale(Pow2(48), 4, 16);
  }

  lemma MulAtLeast(x: int, d: int)
    requires x >= 1 && d >= 0
    ensures x * d >= d
  {
    assert x * d == d + (x - 1) * d;
  }

  /** Division with remainder is unique. */
  lemma DivModUnique(a: int, d: int, q: int, r: int)
    requires 0 <= r < d && a == q * d + r
    ensures a / d == q && a % d == r
  {
    var e := q - a / d;
    assert e * d == q * d - a / d * d == a % d - r;
    if e >= 1 {
      MulAtLeast(e, d);
    } else if e <= -1 {
      MulAtLeast(-e, d);
    }
  }

  /** Shifts and masks are division and remainder by p = 2^k. */
  lemma Cut(a: nat, k: nat, p: nat)
    requires p == Pow2(k)
    ensures High(a, k) == a / p && Low(a, k) == a % p
  {
    CutAt(a, k);
    Scale(High(a, k), k, p);
    DivModUnique(a, p, High(a, k), Low(a, k));
  }

  /** `x & 0x0000_ffff_ffff_f000`: the page-aligned part below 2^48. */
  lemma AndAddressMask(x: nat)
    ensures And(x, 0x0000_ffff_ffff_f000) == x / 0x1000 % 0x10_0000_0000 * 0x1000
  {
    Powers();
    Cut(x, 12, 0x1000);
    Cut(x / 0x1000, 36, 0x10_0000_0000);
    Scale(Pow2(36) - 1, 12, 0x1000);
    AndShifted(x, Pow2(36) - 1, 12);
    AndLowMask(x / 0x1000, 36);
    Scale(Low(x / 0x1000, 36), 12, 0x1000);
  }

  /** `x & ~0xfff` on `u64`. */
  lemma AndPageMask(x: Word)
    ensures And(x, 0xffff_ffff_ffff_f000) == x - x % 0x1000
  {
    Powers();
    Cut(x, 12, 0x1000);
    Cut(x / 0x1000, 52, 0x10_0000_0000_0000);
    Scale(Pow2(52) - 1, 12, 0x1000);
    AndShifted(x, Pow2(52) - 1, 12);
    AndLowMask(x / 0x1000, 52);
    Scale(Low(x / 0x1000, 52), 12, 0x1000);
  }

  /** `x & 0xfff` and `x & 0x1ff`. */
  lemma AndLowMasks(x: nat)
    ensures And(x, 0xfff) == x % 0x1000
    ensures And(x, 0x1ff) == x % 0x200
  {
    Powers();
    Cut(x, 12, 0x1000);
    Cut(x, 9, 0x200);
    AndLowMask(x, 12);
    AndLowMask(x, 9);
  }

  /** Setting bits j <= i < k of a number that has none of them: the `|` is a sum. */
  lemma OrInsert(hi: nat, lo: nat, flags: nat, j: nat, k: nat, q: nat, p: nat)
    requires q == Pow2(j) && p == Pow2(k) && lo < q && flags * q + lo < p
    ensures Or(hi * p + lo, flags * q) == hi * p + flags * q + lo
  {
    Scale(hi, k, p);
    Scale(flags, j, q);
    if lo < p {
      OrLow(hi, lo, flags * q, k);
    }
    OrHigh(lo, flags, j);
  }
}
