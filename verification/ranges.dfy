/** What a call that maps an address range does to the flat page map, for every `u64` argument. */
module Ranges {
  import opened Words
  import opened Descriptors
  import opened TableTrees

  /** `(val + 0xfff) & ~0xfff`, wrapping. */
  function AlignUp(val: Word): Word {
    RoundsDown(Add(val, 0xfff));
    And(Add(val, 0xfff), PAGE_MASK)
  }

  lemma RoundsDown(x: Word)
    ensures And(x, PAGE_MASK) == x - x % 0x1000
    ensures (x - x % 0x1000) % 0x1000 == 0
  {
    hide And;
    AndPageMask(x);
    DivModUnique(x - x % 0x1000, 0x1000, x / 0x1000, 0);
  }

  /** The least page boundary not below `val`, or 0 when there is none below 2^64. */
  lemma AlignUpRounds(val: Word)
    ensures AlignUp(val) % 0x1000 == 0
    ensures val + 0xfff < MOD64 ==> val <= AlignUp(val) < val + 0x1000
    ensures val + 0xfff >= MOD64 ==> AlignUp(val) == 0
  {
    hide And;
    RoundsDown(Add(val, 0xfff));
  }

  /** `val & ~0xfff`. */
  function AlignDown(val: Word): (r: Word)
    ensures r == val - val % 0x1000
  {
    RoundsDown(val);
    And(val, PAGE_MASK)
  }

  /** n pages from `start` on, page i to `pa + 4096 * i`; a later page overwrites an earlier one
      when addresses 2^39 apart meet in the same slot. */
  ghost function Fill(pages: map<int, Word>, attr: Attr, start: Word, n: nat, pa: Word): map<int, Word>
    requires start + n * 0x1000 <= MOD64
  {
    if n == 0 then pages
    else Fill(pages, attr, start, n - 1, pa)
         [PageOf(start + (n - 1) * 0x1000) := Leaf(attr, Add(pa, (n - 1) * 0x1000))]
  }

  lemma FillNone(pages: map<int, Word>, attr: Attr, start: Word, pa: Word)
    ensures Fill(pages, attr, start, 0, pa) == pages
  {
  }

  lemma FillStep(pages: map<int, Word>, attr: Attr, start: Word, k: nat, pa: Word)
    requires start + (k + 1) * 0x1000 <= MOD64
    ensures Fill(pages, attr, start, k + 1, pa)
         == Fill(pages, attr, start, k, pa)[PageOf(start + k * 0x1000) := Leaf(attr, Add(pa, k * 0x1000))]
  {
  }

  /** The iterations of the mapping loop: none when the end wraps below the start. */
  ghost function PageCount(va: Word, size: Word): (n: nat)
    ensures AlignDown(va) + n * 0x1000 <= MOD64
    ensures size > 0 && AlignUp(Add(va, size)) > AlignDown(va) ==>
              AlignDown(va) + n * 0x1000 == AlignUp(Add(va, size))
  {
    LoopEnds(va, Add(va, size));
    var start, end := AlignDown(va), AlignUp(Add(va, size));
    if size == 0 || end <= start then 0 else (end - start) / 0x1000
  }

  lemma LoopEnds(va: Word, end: Word)
    ensures AlignDown(va) % 0x1000 == 0 && AlignUp(end) % 0x1000 == 0
    ensures AlignUp(end) == AlignDown(va) + (AlignUp(end) - AlignDown(va)) / 0x1000 * 0x1000
  {
    hide And, AlignUp, AlignDown;
    RoundsDown(va);
    AlignUpRounds(end);
    var a, b := AlignDown(va) / 0x1000, AlignUp(end) / 0x1000;
    DivModUnique(AlignUp(end) - AlignDown(va), 0x1000, b - a, 0);
  }

  lemma CountsPages(va: Word, size: Word)
    ensures Sub(va, AlignDown(va)) == va % 0x1000
    ensures var n, start, end := PageCount(va, size), AlignDown(va), AlignUp(Add(va, size));
            if size == 0 || end <= start then n == 0 else start + n * 0x1000 == end
  {
    hide AlignUp, AlignDown;
    RoundsDown(va);
  }

  /** The page map after s2_map_identity_range or el2_map_range. */
  ghost function MapRange(pages: map<int, Word>, attr: Attr, va: Word, pa: Word, size: Word): map<int, Word> {
    Fill(pages, attr, AlignDown(va), PageCount(va, size), Sub(pa, va % 0x1000))
  }

  lemma ValidFits(t: TableTree)
    requires t.Valid()
    ensures FitsPools(t.pages, t.maxL2, t.maxL3)
  {
    t.UsedCounts();
    t.ParentsInRange();
  }

  /** What address x translates to after one page has been mapped over `before`. */
  ghost function MappedPage(before: map<int, Word>, attr: Attr, va: Word, pa: Word, x: int): Translation {
    if x / 0x1000 == PageOf(va)
    then Intended(attr, pa / 0x1000 % 0x10_0000_0000 * 0x1000 + x % 0x1000)
    else Translate(RegimeOf(attr), WalkOf(before, x), x)
  }

  lemma PageMeaning(before: map<int, Word>, attr: Attr, va: Word, pa: Word, x: int)
    ensures Translate(RegimeOf(attr), WalkOf(before[PageOf(va) := Leaf(attr, pa)], x), x)
         == MappedPage(before, attr, va, pa, x)
  {
    hide PageOf, Leaf, Translate;
    SplitAddress(va);
    LeafDecodes(attr, pa, x);
  }

  lemma RegionsGrow(pages: map<int, Word>, p: int, d: Word, maxL2: nat, maxL3: nat)
    requires FitsPools(pages[p := d], maxL2, maxL3)
    ensures FitsPools(pages, maxL2, maxL3)
  {
    RegionsAdd(pages, p, d, 0x4_0000);
    RegionsAdd(pages, p, d, 512);
    CardGrows(Regions(pages, 0x4_0000), p / 0x4_0000);
    CardGrows(Regions(pages, 512), p / 512);
  }

  lemma CardGrows(s: set<int>, e: int)
    ensures |s| <= |s + {e}|
  {
    if e !in s {
      assert |s + {e}| == |s| + 1;
    } else {
      assert s + {e} == s;
    }
  }

  /** A fill that fits the pools fits at every earlier point. */
  lemma {:induction false} FitsEarlier(pages: map<int, Word>, attr: Attr, start: Word, k: nat, n: nat, pa: Word, maxL2: nat, maxL3: nat)
    requires k <= n && start + n * 0x1000 <= MOD64
    requires FitsPools(Fill(pages, attr, start, n, pa), maxL2, maxL3)
    ensures FitsPools(Fill(pages, attr, start, k, pa), maxL2, maxL3)
    decreases n - k
  {
    hide Leaf, FitsPools, PageOf, Add;
    if k < n {
      RegionsGrow(Fill(pages, attr, start, n - 1, pa), PageOf(start + (n - 1) * 0x1000),
                  Leaf(attr, Add(pa, (n - 1) * 0x1000)), maxL2, maxL3);
      FitsEarlier(pages, attr, start, k, n - 1, pa, maxL2, maxL3);
    }
  }

  /** Once a fill has overrun the pools it never fits again. */
  lemma StaysFull(pages: map<int, Word>, attr: Attr, start: Word, k: nat, n: nat, pa: Word, maxL2: nat, maxL3: nat)
    requires k <= n && start + n * 0x1000 <= MOD64
    requires !FitsPools(Fill(pages, attr, start, k, pa), maxL2, maxL3)
    ensures !FitsPools(Fill(pages, attr, start, n, pa), maxL2, maxL3)
  {
    hide FitsPools, Leaf;
    if FitsPools(Fill(pages, attr, start, n, pa), maxL2, maxL3) {
      FitsEarlier(pages, attr, start, k, n, pa, maxL2, maxL3);
    }
  }

  lemma PageBelowLimit(page: nat)
    requires page * 0x1000 < INPUT_LIMIT
    ensures PageOf(page * 0x1000) == page
  {
  }

  /** Below 2^39 a fill maps exactly its own pages, each to its own address. */
  lemma {:induction false} FillLookup(pages: map<int, Word>, attr: Attr, first: nat, n: nat, pa: Word, q: int)
    requires (first + n) * 0x1000 <= INPUT_LIMIT && first * 0x1000 < MOD64
    ensures var after := Fill(pages, attr, first * 0x1000, n, pa);
            && (q in after <==> q in pages || first <= q < first + n)
            && (first <= q < first + n ==> after[q] == Leaf(attr, Add(pa, (q - first) * 0x1000)))
            && (q in pages && !(first <= q < first + n) ==> after[q] == pages[q])
  {
    hide Leaf, PageOf, Add, Fill;
    if n == 0 {
      FillNone(pages, attr, first * 0x1000, pa);
    } else {
      FillLookup(pages, attr, first, n - 1, pa, q);
      FillStep(pages, attr, first * 0x1000, n - 1, pa);
      PageBelowLimit(first + n - 1);
    }
  }

  /** The page that step i of a fill from `start` writes. */
  function StepPage(start: Word, i: nat): int
    requires start + i * 0x1000 < MOD64
  {
    (start + i * 0x1000) / 0x1000 % 0x800_0000
  }

  /** Any fill, also one that runs past 2^39 and comes back over its own pages: each page holds what
      the last step i that writes it stored, and a page no step writes (i is -1) what it held. */
  lemma {:induction false} FillLast(pages: map<int, Word>, attr: Attr, start: Word, n: nat, pa: Word, q: int, i: int)
    requires start + n * 0x1000 <= MOD64 && -1 <= i < n
    requires i >= 0 ==> StepPage(start, i) == q
    requires forall j :: i < j < n ==> StepPage(start, j) != q
    ensures var after := Fill(pages, attr, start, n, pa);
            && (q in after <==> q in pages || i >= 0)
            && (q in after ==> after[q] == if i < 0 then pages[q] else Leaf(attr, (pa + i * 0x1000) % MOD64))
  {
    hide Leaf, Fill, Add;
    if n == 0 {
      FillNone(pages, attr, start, pa);
    } else {
      FillStep(pages, attr, start, n - 1, pa);
      WrapAround(pa, (n - 1) * 0x1000);
      assert PageOf(start + (n - 1) * 0x1000) == StepPage(start, n - 1);
      if i < n - 1 {
        FillLast(pages, attr, start, n - 1, pa, q, i);
      }
    }
  }

  /** A non-wrapping range covers the pages it touches, rounded outwards. */
  lemma PagesTouched(va: Word, size: Word, q: int)
    requires va + size <= INPUT_LIMIT
    ensures var first, n := va / 0x1000, PageCount(va, size);
            && AlignDown(va) == first * 0x1000 && AlignDown(va) + n * 0x1000 <= INPUT_LIMIT
            && (first <= q < first + n <==> size > 0 && first <= q && q * 0x1000 < va + size)
  {
    hide And, AlignUp, AlignDown;
    AlignUpRounds(va + size);
    RoundsDown(va);
    DivModUnique(AlignDown(va), 0x1000, va / 0x1000, 0);
    if size > 0 {
      var m := AlignUp(va + size) / 0x1000;
      assert AlignUp(va + size) == m * 0x1000;
      assert PageCount(va, size) == m - va / 0x1000;
    }
  }

  /** The pages of a non-wrapping range, and what they map to. */
  lemma RangeLookup(pages: map<int, Word>, attr: Attr, va: Word, pa: Word, size: Word, q: int)
    requires va + size <= INPUT_LIMIT
    ensures var after := MapRange(pages, attr, va, pa, size);
            var inside := size > 0 && va / 0x1000 <= q && q * 0x1000 < va + size;
            && (q in after <==> q in pages || inside)
            && (inside ==> after[q] == Leaf(attr, Add(Sub(pa, va % 0x1000), (q - va / 0x1000) * 0x1000)))
            && (q in pages && !inside ==> after[q] == pages[q])
  {
    hide Leaf, AlignUp, AlignDown, PageCount, Fill, Add, Sub;
    PagesTouched(va, size, q);
    var first, n, to := va / 0x1000, PageCount(va, size), Sub(pa, va % 0x1000);
    assert MapRange(pages, attr, va, pa, size) == Fill(pages, attr, first * 0x1000, n, to);
    FillLookup(pages, attr, first, n, to, q);
  }
}
