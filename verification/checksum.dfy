/** guests/memwalk_os.c and guests/guest_tasks.c: the writer's checksum and the re-read one. */
module Checksum {
  import opened Words

  // ----- Exclusive or -----

  lemma XorStep(a: nat, b: nat)
    ensures Xor(a, b) == (if a % 2 != b % 2 then 1 else 0) + 2 * Xor(a / 2, b / 2)
  {
  }

  lemma XorParts(a: nat, b: nat)
    ensures Xor(a, b) % 2 == (if a % 2 != b % 2 then 1 else 0)
    ensures Xor(a, b) / 2 == Xor(a / 2, b / 2)
  {
    XorStep(a, b);
  }

  lemma {:induction false} XorCommutes(a: nat, b: nat)
    ensures Xor(a, b) == Xor(b, a)
    decreases a + b
  {
    if a + b > 0 {
      XorStep(a, b);
      XorStep(b, a);
      XorCommutes(a / 2, b / 2);
    }
  }

  lemma {:induction false} XorAssociates(a: nat, b: nat, c: nat)
    ensures Xor(Xor(a, b), c) == Xor(a, Xor(b, c))
    decreases a + b + c
  {
    if a + b + c > 0 {
      XorParts(a, b);
      XorParts(b, c);
      XorStep(Xor(a, b), c);
      XorStep(a, Xor(b, c));
      XorAssociates(a / 2, b / 2, c / 2);
    }
  }

  lemma {:induction false} XorSelf(a: nat)
    ensures Xor(a, a) == 0 && Xor(a, 0) == a
  {
    if a > 0 {
      XorStep(a, a);
      XorStep(a, 0);
      XorSelf(a / 2);
    }
  }

  lemma {:induction false} XorBelow(a: nat, b: nat, k: nat)
    requires a < Pow2(k) && b < Pow2(k)
    ensures Xor(a, b) < Pow2(k)
  {
    if k > 0 {
      XorStep(a, b);
      XorBelow(a / 2, b / 2, k - 1);
    }
  }

  /** `a ^ b` on `u64`. */
  function Xor64(a: Word, b: Word): Word {
    WordBound();
    XorBelow(a, b, 64);
    Xor(a, b)
  }

  lemma WordBound()
    ensures Pow2(64) == MOD64
  {
    Powers();
    PowSum(12, 52);
    Scale(Pow2(52), 12, 0x1000);
  }

  lemma Xor64Laws(a: Word, b: Word, c: Word)
    ensures Xor64(a, b) == Xor64(b, a)
    ensures Xor64(Xor64(a, b), c) == Xor64(a, Xor64(b, c))
    ensures Xor64(a, a) == 0 && Xor64(a, 0) == a && Xor64(0, a) == a
  {
    XorCommutes(a, b);
    XorAssociates(a, b, c);
    XorSelf(a);
  }

  // ----- Checksums -----

  /** The checksum loop over a sequence of words. */
  function Fold(w: seq<Word>): Word {
    if w == [] then 0 else Xor64(Fold(w[..|w| - 1]), w[|w| - 1])
  }

  /** The word the guest writes at index i: `seed ^ (i << 8)`. */
  function Pattern(seed: Word, i: nat): Word { Xor64(seed, i * 0x100 % MOD64) }

  function Written(seed: Word, n: nat): (w: seq<Word>)
    ensures |w| == n
  {
    seq(n, i requires 0 <= i < n => Pattern(seed, i))
  }

  /** The tag the re-reader mixes into every word: `guest_id << 32`. */
  function Tag(guestId: Word): Word { guestId * 0x1_0000_0000 % MOD64 }

  function Tagged(w: seq<Word>, tag: Word): (t: seq<Word>)
    ensures |t| == |w|
  {
    seq(|w|, i requires 0 <= i < |w| => Xor64(w[i], tag))
  }

  /** The pattern carries the seed and the index: taking the seed away leaves `i << 8`. */
  lemma PatternHolds(seed: Word, i: nat)
    requires i * 0x100 < MOD64
    ensures Xor64(Pattern(seed, i), seed) == i * 0x100
  {
    hide Xor64;
    var shifted := i * 0x100 % MOD64;
    Xor64Laws(seed, shifted, seed);
    Xor64Laws(shifted, seed, seed);
    Xor64Laws(shifted, Xor64(seed, seed), seed);
  }

  /** A guest id below 2^32 sits in the upper half of its tag. */
  lemma TagHolds(guestId: Word)
    requires guestId < 0x1_0000_0000
    ensures Tag(guestId) == guestId * 0x1_0000_0000
  {
  }

  /** Every word counts in a checksum: replacing one word mixes in its old and its new value. */
  lemma {:induction false} FoldUpdate(w: seq<Word>, i: nat, y: Word)
    requires i < |w|
    ensures Fold(w[i := y]) == Xor64(Xor64(Fold(w), w[i]), y)
    decreases |w|
  {
    hide Xor64;
    var n := |w| - 1;
    var f, x := Fold(w[..n]), w[n];
    if i == n {
      assert w[i := y][..n] == w[..n];
      Xor64Laws(f, x, x);
      Xor64Laws(x, x, x);
      Xor64Laws(f, Xor64(x, x), x);
    } else {
      assert w[i := y][..n] == w[..n][i := y];
      FoldUpdate(w[..n], i, y);
      Xor64Laws(Xor64(f, w[i]), y, x);
      Xor64Laws(y, x, x);
      Xor64Laws(Xor64(f, w[i]), x, y);
      Xor64Laws(f, w[i], x);
      Xor64Laws(w[i], x, x);
      Xor64Laws(f, x, w[i]);
    }
  }

  /** The checksum of nothing but zeros is 0; with FoldUpdate this fixes every checksum. */
  lemma {:induction false} FoldZeros(w: seq<Word>)
    requires forall i :: 0 <= i < |w| ==> w[i] == 0
    ensures Fold(w) == 0
    decreases |w|
  {
    hide Xor64;
    if w != [] {
      FoldZeros(w[..|w| - 1]);
      Xor64Laws(0, 0, 0);
    }
  }

  /** The inner loop of guest_memwalk_os. */
  method FillRegion(region: array<Word>, seed: Word) returns (checksum: Word)
    modifies region
    ensures region[..] == Written(seed, region.Length)
    ensures forall i :: 0 <= i < region.Length && i * 0x100 < MOD64 ==> Xor64(region[i], seed) == i * 0x100
    ensures checksum == Fold(region[..])
  {
    hide Pattern, Xor64;
    forall i | 0 <= i < region.Length && i * 0x100 < MOD64 ensures Xor64(Pattern(seed, i), seed) == i * 0x100 {
      PatternHolds(seed, i);
    }
    checksum := 0;
    for i := 0 to region.Length
      invariant region[..i] == Written(seed, i)
      invariant checksum == Fold(region[..i])
    {
      var value := Pattern(seed, i);
      region[i] := value;
      assert region[..i + 1][..i] == region[..i];
      assert Written(seed, i + 1) == Written(seed, i) + [value];
      checksum := Xor64(checksum, value);
    }
    assert region[..region.Length] == region[..];
  }

  /** The loop of guest_task_memwalk. */
  method RereadRegion(region: array<Word>, guestId: Word) returns (checksum: Word)
    ensures checksum == Fold(Tagged(region[..], Tag(guestId)))
  {
    hide Tag, Xor64;
    ghost var all := Tagged(region[..], Tag(guestId));
    checksum := 0;
    for i := 0 to region.Length
      invariant checksum == Fold(all[..i])
    {
      var value := Xor64(region[i], Tag(guestId));
      assert all[..i + 1][..i] == all[..i] && all[..i + 1][i] == value;
      checksum := Xor64(checksum, value);
    }
    assert all[..region.Length] == all;
  }

  /** Mixing a tag into every word of a region mixes it into the checksum once per odd word. */
  lemma {:induction false} TagsCancel(w: seq<Word>, tag: Word)
    ensures Fold(Tagged(w, tag)) == if |w| % 2 == 0 then Fold(w) else Xor64(Fold(w), tag)
  {
    hide Xor64;
    if w != [] {
      var n := |w| - 1;
      var f, x := Fold(w[..n]), w[n];
      TagsCancel(w[..n], tag);
      assert Tagged(w, tag)[..n] == Tagged(w[..n], tag);
      Xor64Laws(f, x, tag);
      Xor64Laws(x, tag, tag);
      Xor64Laws(f, tag, Xor64(x, tag));
      Xor64Laws(tag, x, tag);
      Xor64Laws(tag, Xor64(x, tag), tag);
    }
  }

  /** The two checksums agree exactly when the word count is even or the tag is 0. */
  lemma ChecksumsAgreeIff(w: seq<Word>, guestId: Word)
    ensures Fold(Tagged(w, Tag(guestId))) == Fold(w) <==> |w| % 2 == 0 || Tag(guestId) == 0
  {
    hide Xor64, Tag;
    var f, tag := Fold(w), Tag(guestId);
    TagsCancel(w, tag);
    Xor64Laws(f, f, tag);
    Xor64Laws(f, tag, f);
    Xor64Laws(tag, tag, tag);
    Xor64Laws(0, tag, tag);
  }

  lemma XorEvenOdd(a: nat)
    ensures Xor(2 * a, 2 * a + 1) == 1
  {
    XorStep(2 * a, 2 * a + 1);
    XorSelf(a);
  }

  lemma {:induction false} XorShl(a: nat, b: nat, k: nat)
    ensures Xor(Shl(a, k), Shl(b, k)) == Shl(Xor(a, b), k)
  {
    hide Xor;
    if k > 0 {
      XorShl(a, b, k - 1);
      XorDouble(Shl(a, k - 1), Shl(b, k - 1));
    }
  }

  lemma XorDouble(a: nat, b: nat)
    ensures Xor(2 * a, 2 * b) == 2 * Xor(a, b)
  {
    XorStep(2 * a, 2 * b);
  }

  /** Words 2j and 2j + 1 of the pattern differ in bit 8 only, whatever the seed. */
  lemma PairsDiffer(seed: Word, j: nat)
    ensures Xor64(Pattern(seed, 2 * j), Pattern(seed, 2 * j + 1)) == 0x100
  {
    var p := j % 0x80_0000_0000_0000;
    var a, b := 2 * j * 0x100 % MOD64, (2 * j + 1) * 0x100 % MOD64;
    assert j == j / 0x80_0000_0000_0000 * 0x80_0000_0000_0000 + p;
    DivModUnique(2 * j * 0x100, MOD64, j / 0x80_0000_0000_0000, 2 * p * 0x100);
    DivModUnique((2 * j + 1) * 0x100, MOD64, j / 0x80_0000_0000_0000, (2 * p + 1) * 0x100);
    assert a == 2 * p * 0x100 && b == (2 * p + 1) * 0x100;
    XorEvenOdd(p);
    XorShl(2 * p, 2 * p + 1, 8);
    ByteShift(2 * p);
    ByteShift(2 * p + 1);
    ByteShift(1);
    assert Xor64(a, b) == 0x100;
    SeedCancels(seed, a, b);
  }

  lemma ByteShift(a: nat)
    ensures Shl(a, 8) == a * 0x100
  {
    Powers();
    Scale(a, 8, 0x100);
  }

  lemma SeedCancels(s: Word, a: Word, b: Word)
    ensures Xor64(Xor64(s, a), Xor64(s, b)) == Xor64(a, b)
  {
    hide Xor64;
    Xor64Laws(s, a, a);
    Xor64Laws(a, s, Xor64(s, b));
    Xor64Laws(s, s, b);
    Xor64Laws(b, b, b);
  }

  lemma NoWords()
    ensures Fold([]) == 0
  {
  }

  lemma FourCancel(a: Word, b: Word, c: Word, d: Word)
    requires Xor64(a, b) == Xor64(c, d)
    ensures Xor64(Xor64(Xor64(Xor64(0, a), b), c), d) == 0
  {
    hide Xor64;
    var ab := Xor64(a, b);
    Xor64Laws(a, b, c);
    Xor64Laws(ab, c, d);
    Xor64Laws(ab, ab, d);
  }

  lemma FoldNext(seed: Word, n: nat)
    ensures Fold(Written(seed, n + 1)) == Xor64(Fold(Written(seed, n)), Pattern(seed, n))
  {
    hide Xor64, Pattern;
    assert Written(seed, n + 1)[..n] == Written(seed, n);
  }

  /** Over any multiple of four words the writer's checksum is 0, for every seed. */
  lemma {:induction false} ChecksumVanishes(seed: Word, n: nat)
    requires n % 4 == 0
    ensures Fold(Written(seed, n)) == 0
  {
    hide Xor64, Pattern, Fold;
    if n == 0 {
      NoWords();
    } else {
      var a, b, c, d := Pattern(seed, n - 4), Pattern(seed, n - 3), Pattern(seed, n - 2), Pattern(seed, n - 1);
      ChecksumVanishes(seed, n - 4);
      FoldNext(seed, n - 4);
      FoldNext(seed, n - 3);
      FoldNext(seed, n - 2);
      FoldNext(seed, n - 1);
      PairsDiffer(seed, (n - 4) / 2);
      PairsDiffer(seed, (n - 2) / 2);
      FourCancel(a, b, c, d);
    }
  }

  /** One iteration of the guest: write, then re-read by guest_task_memwalk. */
  method MemwalkIteration(region: array<Word>, seed: Word, guestId: Word) returns (written: Word, reread: Word)
    modifies region
    ensures forall i :: 0 <= i < region.Length && i * 0x100 < MOD64 ==> Xor64(region[i], seed) == i * 0x100
    ensures written == Fold(region[..]) && reread == Fold(Tagged(region[..], Tag(guestId)))
    ensures region.Length % 2 == 0 ==> reread == written
    ensures region.Length % 4 == 0 ==> reread == written == 0
  {
    hide Fold, Tag;
    written := FillRegion(region, seed);
    reread := RereadRegion(region, guestId);
    ChecksumsAgreeIff(region[..], guestId);
    if region.Length % 4 == 0 {
      ChecksumVanishes(seed, region.Length);
    }
  }
}
