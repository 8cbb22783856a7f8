/** The three-level table tree that core/s2_mmu.c and core/el2_mmu.c both build from bounded
    static pools, and the hardware walk that reads only its descriptors. */
module TableTrees {
  import opened Words
  import opened Descriptors

  // A page number p < 2^27 is (level-1 index, level-2 index, level-3 index): bits 38:30, 29:21
  // and 20:12 of the address.
  function Index1(p: int): int { p / 0x4_0000 }
  function Index2(p: int): int { p / 512 % 512 }
  function Index3(p: int): int { p % 512 }

  // A region of 512 pages is (level-1 index, level-2 index).
  function RegionAt(i: int, j: int): int { i * 512 + j }
  function PageAt(r: int, k: int): int { r * 512 + k }

  /** The page of the tree that an address selects: the builders drop bits 39 and up. */
  function PageOf(va: Word): int {
    va / 0x1000 % PAGES
  }

  function Lookup(pages: map<int, Word>, p: int): Word {
    if p in pages then pages[p] else 0
  }

  /** The walk that the flat page map calls for. */
  ghost function WalkOf(pages: map<int, Word>, x: int): Walked {
    if 0 <= x < INPUT_LIMIT && Lookup(pages, x / 0x1000) % 4 == 3
    then Found(pages[x / 0x1000], 0x1000) else NoLeaf
  }

  /** The regions of n pages each that contain a mapped page. */
  ghost function Regions(pages: map<int, Word>, n: int): set<int>
    requires n > 0
  {
    set p | p in pages :: p / n
  }

  ghost predicate FitsPools(pages: map<int, Word>, maxL2: nat, maxL3: nat) {
    |Regions(pages, 0x4_0000)| <= maxL2 && |Regions(pages, 512)| <= maxL3
  }

  lemma SplitAddress(va: Word)
    ensures var p := PageOf(va);
            && 0 <= p < PAGES
            && Index1(p) == va / 0x4000_0000 % 512
            && Index2(p) == va / 0x20_0000 % 512
            && Index3(p) == va / 0x1000 % 512
  {
    var page := va / 0x1000;
    var hi, p := page / PAGES, page % PAGES;
    assert va / 0x4000_0000 == page / 0x4_0000 && va / 0x20_0000 == page / 512;
    IndexOf(page, hi, p, 0x4_0000, 512);
    IndexOf(page, hi, p, 512, 0x4_0000);
    DivModUnique(hi * 512 + p / 0x4_0000, 512, hi, p / 0x4_0000);
    DivModUnique(hi * 0x4_0000 + p / 512, 512, hi * 512 + p / 0x4_0000, p / 512 % 512);
    DivModUnique(page, 512, hi * 0x4_0000 + p / 512, p % 512);
  }

  lemma IndexOf(page: nat, hi: nat, p: nat, d: nat, n: nat)
    requires d > 0 && d * n == PAGES && page == hi * PAGES + p && p < PAGES
    ensures page / d == hi * n + p / d
  {
    assert hi * (d * n) == hi * n * d;
    assert (hi * n + p / d) * d == hi * n * d + p / d * d;
    DivModUnique(page, d, hi * n + p / d, p % d);
  }

  lemma SplitPage(p: int)
    requires 0 <= p < PAGES
    ensures 0 <= Index1(p) < 512 && 0 <= Index2(p) < 512 && 0 <= Index3(p) < 512
    ensures p / 0x4_0000 == Index1(p) && p / 512 == RegionAt(Index1(p), Index2(p))
    ensures p == PageAt(p / 512, Index3(p))
  {
  }

  lemma JoinPage(i: int, j: int, k: int)
    requires 0 <= i < 512 && 0 <= j < 512 && 0 <= k < 512
    ensures var r := RegionAt(i, j); var p := PageAt(r, k);
            && 0 <= p < PAGES
            && p / 512 == r && Index1(p) == i && Index2(p) == j && Index3(p) == k
  {
    var r := i * 512 + j;
    DivModUnique(r, 512, i, j);
    DivModUnique(r * 512 + k, 512, r, k);
    DivModUnique(r * 512 + k, 0x4_0000, i, j * 512 + k);
  }

  lemma RegionsAdd(pages: map<int, Word>, p: int, d: Word, n: int)
    requires n > 0
    ensures Regions(pages[p := d], n) == Regions(pages, n) + {p / n}
  {
    var after := pages[p := d];
    forall r | r in Regions(pages, n) + {p / n} ensures r in Regions(after, n) {
      if r == p / n {
        assert p in after;
      } else {
        var q :| q in pages && q / n == r;
        assert q in after;
      }
    }
  }

  lemma {:induction false} CardWithin(s: set<int>, lo: int, hi: int)
    requires forall e :: e in s ==> lo <= e < hi
    requires lo <= hi
    ensures |s| <= hi - lo
    decreases hi - lo
  {
    if lo == hi {
      assert s == {};
    } else {
      CardWithin(s - {hi - 1}, lo, hi - 1);
    }
  }

  ghost function Elements(s: seq<int>): set<int> { set i | 0 <= i < |s| :: s[i] }

  lemma {:induction false} CardOfDistinct(s: seq<int>)
    requires forall i, j :: 0 <= i < j < |s| ==> s[i] != s[j]
    ensures |Elements(s)| == |s|
  {
    if s != [] {
      var n := |s| - 1;
      CardOfDistinct(s[..n]);
      assert Elements(s) == Elements(s[..n]) + {s[n]};
      assert s[n] !in Elements(s[..n]);
    }
  }

  lemma ElementsAppend(s: seq<int>, x: int)
    ensures Elements(s + [x]) == Elements(s) + {x}
  {
    var t := s + [x];
    forall e | e in Elements(s) + {x} ensures e in Elements(t) {
      if e == x {
        assert t[|s|] == x;
      } else {
        var i :| 0 <= i < |s| && s[i] == e;
        assert t[i] == e;
      }
    }
  }

  lemma ServedAppend(l2Region: seq<int>, l3Parent: seq<(int, int)>, more: seq<int>, q: (int, int))
    requires forall t :: 0 <= t < |l3Parent| ==> 0 <= l3Parent[t].0 < |l2Region|
    requires 0 <= q.0 < |l2Region + more|
    ensures Served(l2Region + more, l3Parent) == Served(l2Region, l3Parent)
    ensures Served(l2Region + more, l3Parent + [q])
         == Served(l2Region, l3Parent) + [RegionAt((l2Region + more)[q.0], q.1)]
  {
  }

  /** The software child pointer of a slot is an index into the pool, or NULL. */
  const NULL: int := -1

  /** The region a level-3 table serves, given the level-2 slot and index that point to it. */
  ghost function ServedBy(l2Region: seq<int>, parent: (int, int)): int {
    if 0 <= parent.0 < |l2Region| then RegionAt(l2Region[parent.0], parent.1) else NULL
  }

  ghost function Served(l2Region: seq<int>, l3Parent: seq<(int, int)>): seq<int> {
    seq(|l3Parent|, t requires 0 <= t < |l3Parent| => ServedBy(l2Region, l3Parent[t]))
  }

  /** The word a child pointer or table descriptor puts in memory, for a pool at `base`. */
  function Address(base: int, stride: int, child: int): Word {
    if child < 0 then 0 else (base + stride * child) % MOD64
  }

  class TableTree {
    // Where the linker put the statics; the level-2 pool interleaves entries and children.
    const l1Base: Word
    const l2Base: Word
    const l3Base: Word
    const maxL2: nat
    const maxL3: nat
    const l1: array<Word>
    const l1Children: array<int>
    const l2Entries: array2<Word>
    const l2Children: array2<int>
    const l3Entries: array2<Word>
    var l2Used: nat
    var l3Used: nat
    ghost const outside: int -> Word

    // The abstract map from page to leaf descriptor, and the one parent of each used slot: a
    // level-1 index for a level-2 table, a (level-2 slot, index) pair for a level-3 table.
    ghost var pages: map<int, Word>
    ghost var l2Region: seq<int>
    ghost var l3Parent: seq<(int, int)>

    /** Statics at given addresses; their contents are whatever memory holds. */
    constructor (l1Base: Word, l2Base: Word, l3Base: Word, maxL2: nat, maxL3: nat, ghost outside: int -> Word)
      requires l1Base % 0x1000 == 0 && l2Base % 0x1000 == 0 && l3Base % 0x1000 == 0
      requires l1Base + 0x1000 <= l2Base && l2Base + 0x2000 * maxL2 <= l3Base
      requires l3Base + 0x1000 * maxL3 <= 0x1_0000_0000_0000
      ensures Placed() && this.maxL2 == maxL2 && this.maxL3 == maxL3
      ensures this.l1Base == l1Base && this.l2Base == l2Base && this.l3Base == l3Base
      ensures fresh(l1) && fresh(l1Children) && fresh(l2Entries) && fresh(l2Children) && fresh(l3Entries)
    {
      this.l1Base, this.l2Base, this.l3Base := l1Base, l2Base, l3Base;
      this.maxL2, this.maxL3, this.outside := maxL2, maxL3, outside;
      l1, l1Children := new Word[512], new int[512];
      l2Entries, l2Children := new Word[maxL2, 512], new int[maxL2, 512];
      l3Entries := new Word[maxL3, 512];
      l2Used, l3Used := 0, 0;
      pages, l2Region, l3Parent := map[], [], [];
    }

    ghost predicate Placed() {
      && l1.Length == l1Children.Length == 512
      && l2Entries.Length0 == l2Children.Length0 == maxL2
      && l2Entries.Length1 == l2Children.Length1 == 512
      && l3Entries.Length0 == maxL3 && l3Entries.Length1 == 512
      && l1 as object != l1Children && l2Entries as object != l2Children
      && l2Entries != l3Entries && l2Children as object != l3Entries
      && l1Base % 0x1000 == 0 && l2Base % 0x1000 == 0 && l3Base % 0x1000 == 0
      && l1Base + 0x1000 <= 0x1_0000_0000_0000
      && l2Base + 0x2000 * maxL2 <= 0x1_0000_0000_0000
      && l3Base + 0x1000 * maxL3 <= 0x1_0000_0000_0000
      && (l1Base + 0x1000 <= l2Base || l2Base + 0x2000 * maxL2 <= l1Base)
      && (l1Base + 0x1000 <= l3Base || l3Base + 0x1000 * maxL3 <= l1Base)
      && (l2Base + 0x2000 * maxL2 <= l3Base || l3Base + 0x1000 * maxL3 <= l2Base)
    }

    ghost predicate L1Shape()
      requires Placed()
      reads this, l1, l1Children
    {
      && |l2Region| == l2Used <= maxL2
      && (forall i :: 0 <= i < 512 ==> NULL <= l1Children[i] < l2Used)
      && (forall i :: 0 <= i < 512 && l1Children[i] >= 0 ==> l2Region[l1Children[i]] == i)
      && (forall s :: 0 <= s < l2Used ==> 0 <= l2Region[s] < 512 && l1Children[l2Region[s]] == s)
      && (forall i :: 0 <= i < 512 ==>
            l1[i] == if l1Children[i] < 0 then 0 else l2Base + 0x2000 * l1Children[i] + 3)
    }

    ghost predicate L2Shape()
      requires Placed() && L1Shape()
      reads this, l1, l1Children, l2Entries, l2Children
    {
      && |l3Parent| == l3Used <= maxL3
      && (forall s, j :: 0 <= s < l2Used && 0 <= j < 512 ==> NULL <= l2Children[s, j] < l3Used)
      && (forall s, j :: 0 <= s < l2Used && 0 <= j < 512 && l2Children[s, j] >= 0 ==>
            l3Parent[l2Children[s, j]] == (s, j))
      && (forall t :: 0 <= t < l3Used ==>
            && 0 <= l3Parent[t].0 < l2Used && 0 <= l3Parent[t].1 < 512
            && l2Children[l3Parent[t].0, l3Parent[t].1] == t)
      && (forall s, j :: 0 <= s < l2Used && 0 <= j < 512 ==>
            l2Entries[s, j] == if l2Children[s, j] < 0 then 0 else l3Base + 0x1000 * l2Children[s, j] + 3)
    }

    ghost predicate L3Shape()
      requires Placed() && L1Shape() && L2Shape()
      reads this, l1, l1Children, l2Entries, l2Children, l3Entries
    {
      && (forall t, k :: 0 <= t < l3Used && 0 <= k < 512 ==>
            l3Entries[t, k] == Lookup(pages, PageAt(ServedBy(l2Region, l3Parent[t]), k)))
      && (forall p :: p in pages ==> 0 <= p < PAGES)
      && (forall p :: p in pages ==>
            && 0 <= Index1(p) < 512 && 0 <= Index2(p) < 512
            && var s := l1Children[Index1(p)]; s >= 0 && l2Children[s, Index2(p)] >= 0)
    }

    /** The tree invariant without the exact pool accounting. */
    ghost predicate Shape()
      reads this, l1, l1Children, l2Entries, l2Children, l3Entries
    {
      Placed() && L1Shape() && L2Shape() && L3Shape()
    }

    ghost predicate Valid()
      reads this, l1, l1Children, l2Entries, l2Children, l3Entries
    {
      && Shape()
      && Elements(l2Region) == Regions(pages, 0x4_0000)
      && Elements(Served(l2Region, l3Parent)) == Regions(pages, 512)
    }

    // ----- The hardware -----

    /** Physical memory, eight bytes at a time. */
    ghost function ReadWord(a: int): Word
      requires Placed()
      reads l1, l2Entries, l2Children, l3Entries
    {
      if l1Base <= a < l1Base + 0x1000 then
        l1[(a - l1Base) / 8]
      else if l2Base <= a < l2Base + 0x2000 * maxL2 then
        var s, w := (a - l2Base) / 0x2000, (a - l2Base) % 0x2000 / 8;
        if w < 512 then l2Entries[s, w] else Address(l3Base, 0x1000, l2Children[s, w - 512])
      else if l3Base <= a < l3Base + 0x1000 * maxL3 then
        l3Entries[(a - l3Base) / 0x1000, (a - l3Base) % 0x1000 / 8]
      else outside(a)
    }

    /** The walk from the level-1 table, through memory and descriptors alone. */
    ghost function Walk(x: int): Walked
      requires Placed()
      reads l1, l2Entries, l2Children, l3Entries
    {
      if !(0 <= x < INPUT_LIMIT) then NoLeaf
      else
        var p := x / 0x1000;
        var d1 := ReadWord(l1Base + Index1(p) * 8);
        if d1 % 4 == 1 then Found(d1, 0x4000_0000)
        else if d1 % 4 != 3 then NoLeaf
        else
          var d2 := ReadWord(And(d1, ADDRESS_MASK) + Index2(p) * 8);
          if d2 % 4 == 1 then Found(d2, 0x20_0000)
          else if d2 % 4 != 3 then NoLeaf
          else
            var d3 := ReadWord(And(d2, ADDRESS_MASK) + Index3(p) * 8);
            if d3 % 4 == 3 then Found(d3, 0x1000) else NoLeaf
    }

    lemma ReadL1(i: int)
      requires Placed() && 0 <= i < 512
      ensures ReadWord(l1Base + i * 8) == l1[i]
    {
    }

    lemma ReadL2(s: int, j: int)
      requires Placed() && 0 <= s < maxL2 && 0 <= j < 512
      ensures ReadWord(l2Base + 0x2000 * s + j * 8) == l2Entries[s, j]
    {
      DivModUnique(0x2000 * s + j * 8, 0x2000, s, j * 8);
    }

    lemma ReadL3(t: int, k: int)
      requires Placed() && 0 <= t < maxL3 && 0 <= k < 512
      ensures ReadWord(l3Base + 0x1000 * t + k * 8) == l3Entries[t, k]
    {
      DivModUnique(0x1000 * t + k * 8, 0x1000, t, k * 8);
    }

    /** What the hardware reads at level 1. */
    lemma WalkL1(i: int)
      requires Shape() && 0 <= i < 512
      ensures var s, d := l1Children[i], ReadWord(l1Base + i * 8);
              && NULL <= s < l2Used <= maxL2
              && (s < 0 ==> d == 0)
              && (s >= 0 ==> d % 4 == 3 && And(d, ADDRESS_MASK) == l2Base + 0x2000 * s && l2Region[s] == i)
    {
      hide And, TableBits, TableBitsEl2, TableTree.ReadWord, TableTree.L2Shape, TableTree.L3Shape;
      ReadL1(i);
      var s := l1Children[i];
      if s >= 0 {
        TableFields(l2Base, 2 * s);
      }
    }

    /** What the hardware reads at level 2. */
    lemma WalkL2(s: int, j: int)
      requires Shape() && 0 <= s < l2Used && 0 <= j < 512
      ensures var t, d := l2Children[s, j], ReadWord(l2Base + 0x2000 * s + j * 8);
              && NULL <= t < l3Used <= maxL3
              && (t < 0 ==> d == 0)
              && (t >= 0 ==> d % 4 == 3 && And(d, ADDRESS_MASK) == l3Base + 0x1000 * t
                             && ServedBy(l2Region, l3Parent[t]) == RegionAt(l2Region[s], j))
    {
      hide And, TableBits, TableBitsEl2, TableTree.ReadWord, TableTree.L3Shape;
      ReadL2(s, j);
      var t := l2Children[s, j];
      if t >= 0 {
        TableFields(l3Base, t);
      }
    }

    /** What the hardware reads at level 3. */
    lemma WalkL3(t: int, k: int)
      requires Shape() && 0 <= t < l3Used && 0 <= k < 512
      ensures ReadWord(l3Base + 0x1000 * t + k * 8) == Lookup(pages, PageAt(ServedBy(l2Region, l3Parent[t]), k))
    {
      ReadL3(t, k);
    }

    lemma UnmappedPage(p: int)
      requires Shape() && 0 <= Index1(p) < 512 && 0 <= Index2(p) < 512
      requires var s := l1Children[Index1(p)]; s < 0 || s >= maxL2 || l2Children[s, Index2(p)] < 0
      ensures p !in pages
    {
    }

    /** Refinement: the descriptor-only walk of every input address agrees with the flat map,
        whatever the unused pool slots and the rest of memory hold. */
    lemma WalkFinds(x: int)
      requires Shape()
      ensures Walk(x) == WalkOf(pages, x)
    {
      hide And, RegionAt, PageAt, ServedBy, TableTree.ReadWord, Index1, Index2, Index3;
      hide TableTree.L1Shape, TableTree.L2Shape, TableTree.L3Shape;
      if 0 <= x < INPUT_LIMIT {
        var p := x / 0x1000;
        SplitPage(p);
        var i, j, k := Index1(p), Index2(p), Index3(p);
        WalkL1(i);
        var s := l1Children[i];
        if s < 0 {
          UnmappedPage(p);
        } else {
          WalkL2(s, j);
          var t := l2Children[s, j];
          if t < 0 {
            UnmappedPage(p);
          } else {
            WalkL3(t, k);
          }
        }
      }
    }

    lemma WalkFindsAll()
      requires Shape()
      ensures forall x: int :: Walk(x) == WalkOf(pages, x)
    {
      forall x: int ensures Walk(x) == WalkOf(pages, x) {
        WalkFinds(x);
      }
    }

    // ----- Exact pool accounting -----

    lemma SlotsAreDistinct()
      requires Shape()
      ensures forall i, j :: 0 <= i < j < l2Used ==> l2Region[i] != l2Region[j]
      ensures var r := Served(l2Region, l3Parent); |r| == l3Used && forall i, j :: 0 <= i < j < l3Used ==> r[i] != r[j]
    {
      var r := Served(l2Region, l3Parent);
      forall i, j | 0 <= i < j < l3Used ensures r[i] != r[j] {
        JoinPage(l2Region[l3Parent[i].0], l3Parent[i].1, 0);
        JoinPage(l2Region[l3Parent[j].0], l3Parent[j].1, 0);
      }
    }

    /** The used counts are the numbers of 1GB and 2MB regions mapped since the last reset. */
    lemma UsedCounts()
      requires Valid()
      ensures l2Used == |Regions(pages, 0x4_0000)| && l3Used == |Regions(pages, 512)|
    {
      SlotsAreDistinct();
      CardOfDistinct(l2Region);
      CardOfDistinct(Served(l2Region, l3Parent));
    }

    /** A level-2 slot is allocated exactly for the 1GB regions with a mapped page. */
    lemma L2AllocatedIffMapped(i: int)
      requires Valid() && 0 <= i < 512
      ensures l1Children[i] >= 0 <==> i in Regions(pages, 0x4_0000)
    {
      if i in Regions(pages, 0x4_0000) {
        var q :| q in pages && q / 0x4_0000 == i;
        assert l1Children[Index1(q)] >= 0;
      }
      if l1Children[i] >= 0 {
        assert l2Region[l1Children[i]] == i;
      }
    }

    /** A level-3 slot is allocated exactly for the 2MB regions with a mapped page. */
    lemma L3AllocatedIffMapped(i: int, j: int)
      requires Valid() && 0 <= i < 512 && 0 <= j < 512
      ensures (l1Children[i] >= 0 && l2Children[l1Children[i], j] >= 0) <==> RegionAt(i, j) in Regions(pages, 512)
    {
      hide RegionAt, Index1, Index2, Index3;
      var s := l1Children[i];
      if RegionAt(i, j) in Regions(pages, 512) {
        var q :| q in pages && q / 512 == RegionAt(i, j);
        SplitPage(q);
        JoinPage(i, j, Index3(q));
        assert l1Children[Index1(q)] >= 0;
      }
      if s >= 0 && l2Children[s, j] >= 0 {
        assert Served(l2Region, l3Parent)[l2Children[s, j]] == RegionAt(i, j);
      }
    }

    // ----- The builder -----

    /** s2_tables_reset / el2_mmu_init: the pools keep whatever they hold. */
    method Reset()
      requires Placed()
      modifies this`l2Used, this`l3Used, this`pages, this`l2Region, this`l3Parent, l1, l1Children
      ensures Valid() && pages == map[]
    {
      for i := 0 to 512
        invariant forall n :: 0 <= n < i ==> l1[n] == 0
      {
        l1[i] := 0;
      }
      for i := 0 to 512
        invariant forall n :: 0 <= n < 512 ==> l1[n] == 0
        invariant forall n :: 0 <= n < i ==> l1Children[n] == NULL
      {
        l1Children[i] := NULL;
      }
      l2Used, l3Used := 0, 0;
      pages, l2Region, l3Parent := map[], [], [];
    }

    /** alloc_l2: the next free slot, cleared; NULL stands for the panic. */
    method AllocL2() returns (s: int)
      requires Placed() && l2Used <= maxL2
      modifies this`l2Used, l2Entries, l2Children
      ensures s == if old(l2Used) < maxL2 then old(l2Used) else NULL
      ensures l2Used == if s >= 0 then s + 1 else old(l2Used)
      ensures forall j :: s >= 0 && 0 <= j < 512 ==> l2Entries[s, j] == 0 && l2Children[s, j] == NULL
      ensures forall n, j :: 0 <= n < maxL2 && n != s && 0 <= j < 512 ==>
                l2Entries[n, j] == old(l2Entries[n, j]) && l2Children[n, j] == old(l2Children[n, j])
    {
      if l2Used >= maxL2 {
        return NULL;
      }
      s := l2Used;
      l2Used := l2Used + 1;
      for i := 0 to 512
        invariant forall j :: 0 <= j < i ==> l2Entries[s, j] == 0
        invariant forall n, j :: 0 <= n < maxL2 && n != s && 0 <= j < 512 ==> l2Entries[n, j] == old(l2Entries[n, j])
        modifies l2Entries
      {
        l2Entries[s, i] := 0;
      }
      for i := 0 to 512
        invariant forall j :: 0 <= j < i ==> l2Children[s, j] == NULL
        invariant forall n, j :: 0 <= n < maxL2 && n != s && 0 <= j < 512 ==> l2Children[n, j] == old(l2Children[n, j])
        modifies l2Children
      {
        l2Children[s, i] := NULL;
      }
    }

    /** alloc_l3. */
    method AllocL3() returns (t: int)
      requires Placed() && l3Used <= maxL3
      modifies this`l3Used, l3Entries
      ensures t == if old(l3Used) < maxL3 then old(l3Used) else NULL
      ensures l3Used == if t >= 0 then t + 1 else old(l3Used)
      ensures forall k :: t >= 0 && 0 <= k < 512 ==> l3Entries[t, k] == 0
      ensures forall n, k :: 0 <= n < maxL3 && n != t && 0 <= k < 512 ==> l3Entries[n, k] == old(l3Entries[n, k])
    {
      if l3Used >= maxL3 {
        return NULL;
      }
      t := l3Used;
      l3Used := l3Used + 1;
      for i := 0 to 512
        invariant forall k :: 0 <= k < i ==> l3Entries[t, k] == 0
        invariant forall n, k :: 0 <= n < maxL3 && n != t && 0 <= k < 512 ==> l3Entries[n, k] == old(l3Entries[n, k])
        modifies l3Entries
      {
        l3Entries[t, i] := 0;
      }
    }

    /** The second half of ensure_l2: a fresh table hung under an empty level-1 slot. */
    method LinkL2(i: int) returns (s: int)
      requires Shape() && 0 <= i < 512 && l1Children[i] < 0
      modifies this`l2Used, this`l2Region, l1, l1Children, l2Entries, l2Children
      ensures s < 0 <==> old(l2Used) == maxL2
      ensures s >= 0 ==> Shape() && l1Children[i] == s && l2Region == old(l2Region) + [i]
      ensures s >= 0 ==> forall j :: 0 <= j < 512 ==> l2Children[s, j] == NULL
    {
      hide And, Or, TableBits, TableBitsEl2, Index1, Index2, Index3, RegionAt, PageAt, Lookup;
      s := AllocL2();
      if s < 0 {
        return;
      }
      l1Children[i] := s;
      TableFields(l2Base, 2 * s);
      l1[i] := TableBits(l2Base + 0x2000 * s);
      l2Region := l2Region + [i];
    }

    /** ensure_l2. */
    method EnsureL2(i: int) returns (s: int)
      requires Shape() && 0 <= i < 512
      modifies this`l2Used, this`l2Region, l1, l1Children, l2Entries, l2Children
      ensures s < 0 <==> old(l1Children[i] < 0 && l2Used == maxL2)
      ensures s >= 0 ==> Shape() && l1Children[i] == s < l2Used && |l2Region| == l2Used && l2Region[s] == i
      ensures s >= 0 ==> l2Region == if old(l1Children[i]) >= 0 then old(l2Region) else old(l2Region) + [i]
      ensures s >= 0 && old(l1Children[i]) >= 0 ==> s == old(l1Children[i])
      ensures s >= 0 && old(l1Children[i]) < 0 ==> forall j :: 0 <= j < 512 ==> l2Children[s, j] == NULL
      ensures s >= 0 && old(l1Children[i]) >= 0 ==>
                forall j :: 0 <= j < 512 ==> l2Children[s, j] == old(l2Children[l1Children[i], j])
    {
      hide TableTree.L2Shape, TableTree.L3Shape;
      s := l1Children[i];
      if s >= 0 {
        return;
      }
      s := LinkL2(i);
    }

    lemma NoPages(s: int, j: int)
      requires Shape() && 0 <= s < l2Used && 0 <= j < 512 && l2Children[s, j] < 0
      ensures forall k :: 0 <= k < 512 ==> PageAt(RegionAt(l2Region[s], j), k) !in pages
    {
      forall k | 0 <= k < 512 ensures PageAt(RegionAt(l2Region[s], j), k) !in pages {
        JoinPage(l2Region[s], j, k);
      }
    }

    /** alloc_l3 on behalf of an empty level-2 slot: being cleared, the new table agrees with the
        page map on the region that the slot covers. */
    method AllocL3For(s: int, j: int) returns (t: int)
      requires Shape() && 0 <= s < l2Used && 0 <= j < 512 && l2Children[s, j] < 0
      modifies this`l3Used, l3Entries
      ensures t == if old(l3Used) < maxL3 then old(l3Used) else NULL
      ensures l3Used == if t >= 0 then t + 1 else old(l3Used)
      ensures forall k :: t >= 0 && 0 <= k < 512 ==>
                l3Entries[t, k] == Lookup(pages, PageAt(RegionAt(l2Region[s], j), k))
      ensures forall n, k :: 0 <= n < maxL3 && n != t && 0 <= k < 512 ==> l3Entries[n, k] == old(l3Entries[n, k])
    {
      hide RegionAt, PageAt, TableTree.L1Shape, TableTree.L3Shape;
      NoPages(s, j);
      t := AllocL3();
    }

    /** ensure_l3. */
    method EnsureL3(s: int, j: int) returns (t: int)
      requires Shape() && 0 <= s < l2Used && 0 <= j < 512
      modifies this`l3Used, this`l3Parent, l2Entries, l2Children, l3Entries
      ensures t < 0 <==> old(l2Children[s, j] < 0 && l3Used == maxL3)
      ensures t >= 0 ==> Shape() && l2Children[s, j] == t < l3Used && |l3Parent| == l3Used && l3Parent[t] == (s, j)
      ensures t >= 0 ==> l3Parent == if old(l2Children[s, j]) >= 0 then old(l3Parent)
                                     else old(l3Parent) + [(s, j)]
    {
      hide And, Or, TableBits, TableBitsEl2, Index1, Index2, Index3, RegionAt, PageAt, Lookup;
      t := l2Children[s, j];
      if t >= 0 {
        return;
      }
      t := AllocL3For(s, j);
      if t < 0 {
        return;
      }
      l2Children[s, j] := t;
      TableFields(l3Base, t);
      l2Entries[s, j] := TableBits(l3Base + 0x1000 * t);
      l3Parent := l3Parent + [(s, j)];
      assert ServedBy(l2Region, l3Parent[t]) == RegionAt(l2Region[s], j);
    }

    /** s2_map_page / map_page: store one leaf, making the tables above it on demand. The page's
        descriptor is the only change to the flat map, and the call panics exactly when the
        mapped 1GB or 2MB regions no longer fit the pools. */
    method SetLeaf(va: Word, desc: Word) returns (ok: bool)
      requires Valid()
      modifies this`l2Used, this`l3Used, this`pages, this`l2Region, this`l3Parent
      modifies l1, l1Children, l2Entries, l2Children, l3Entries
      ensures ok <==> FitsPools(old(pages)[PageOf(va) := desc], maxL2, maxL3)
      ensures ok ==> Valid() && pages == old(pages)[PageOf(va) := desc]
    {
      hide And, Index1, Index2, Index3, PageAt, RegionAt, PageOf, Elements, Regions, Served;
      hide TableTree.L1Shape, TableTree.L2Shape, TableTree.L3Shape;
      ghost var p := PageOf(va);
      ghost var after := pages[p := desc];
      var l1Idx := And(va / 0x4000_0000, 0x1ff);
      var l2Idx := And(va / 0x20_0000, 0x1ff);
      var l3Idx := And(va / 0x1000, 0x1ff);
      AndLowMasks(va / 0x4000_0000);
      AndLowMasks(va / 0x20_0000);
      AndLowMasks(va / 0x1000);
      SplitAddress(va);
      SplitPage(p);
      Accounting(p, desc);
      ParentsInRange();

      var s := EnsureL2(l1Idx);
      if s < 0 {
        return false;
      }
      var t := EnsureL3(s, l2Idx);
      if t < 0 {
        return false;
      }
      ok := true;
      ServedAppend(old(l2Region), old(l3Parent), l2Region[|old(l2Region)|..], (s, l2Idx));
      ElementsAppend(old(l2Region), l1Idx);
      ElementsAppend(Served(old(l2Region), old(l3Parent)), RegionAt(l1Idx, l2Idx));
      assert l2Region == old(l2Region) + l2Region[|old(l2Region)|..];
      assert old(l1Children[l1Idx]) >= 0 ==> l2Region == old(l2Region);
      assert Elements(l2Region) == Regions(after, 0x4_0000);
      assert Elements(Served(l2Region, l3Parent)) == Regions(after, 512);
      StoreLeaf(t, l3Idx, p, desc);
    }

    /** No two leaf slots serve the same page. */
    lemma SlotOfPage(t: int, k: int)
      requires Shape() && 0 <= t < l3Used && 0 <= k < 512
      ensures forall t', k' | 0 <= t' < l3Used && 0 <= k' < 512 ::
                (PageAt(ServedBy(l2Region, l3Parent[t']), k') == PageAt(ServedBy(l2Region, l3Parent[t]), k)
                 ==> t' == t && k' == k)
      ensures var p := PageAt(ServedBy(l2Region, l3Parent[t]), k);
              Index1(p) == l2Region[l3Parent[t].0] && Index2(p) == l3Parent[t].1
    {
      hide Index1, Index2, Index3, RegionAt, PageAt;
      var (s, j) := l3Parent[t];
      JoinPage(l2Region[s], j, k);
      forall t', k' | 0 <= t' < l3Used && 0 <= k' < 512 &&
        PageAt(ServedBy(l2Region, l3Parent[t']), k') == PageAt(ServedBy(l2Region, l3Parent[t]), k)
        ensures t' == t && k' == k
      {
        var (s', j') := l3Parent[t'];
        JoinPage(l2Region[s'], j', k');
        assert l1Children[l2Region[s']] == s';
      }
    }

    /** The store of the leaf itself. */
    method StoreLeaf(t: int, k: int, ghost p: int, desc: Word)
      requires Shape() && 0 <= t < l3Used && 0 <= k < 512
      requires 0 <= p < PAGES && p == PageAt(ServedBy(l2Region, l3Parent[t]), k)
      modifies this`pages, l3Entries
      ensures Shape() && pages == old(pages)[p := desc]
    {
      hide Index1, Index2, Index3, RegionAt, PageAt;
      SlotOfPage(t, k);
      l3Entries[t, k] := desc;
      pages := pages[p := desc];
    }

    lemma ParentsInRange()
      requires Shape()
      ensures |l2Region| == l2Used <= maxL2 && |l3Parent| == l3Used <= maxL3
      ensures forall t :: 0 <= t < |l3Parent| ==> 0 <= l3Parent[t].0 < |l2Region|
      ensures forall i :: 0 <= i < 512 ==> NULL <= l1Children[i] < l2Used
    {
    }

    /** How one more page changes the region counts. */
    lemma Accounting(p: int, desc: Word)
      requires Valid() && 0 <= p < PAGES
      ensures 0 <= Index1(p) < 512 && 0 <= Index2(p) < 512
      ensures var i, s, after := Index1(p), l1Children[Index1(p)], pages[p := desc];
              && var l3Slots := Served(l2Region, l3Parent);
              && Regions(after, 0x4_0000) == Elements(l2Region) + (if s < 0 then {i} else {})
              && Regions(after, 512) == Elements(l3Slots) +
                   (if s < 0 || l2Children[s, Index2(p)] < 0 then {RegionAt(i, Index2(p))} else {})
              && |Regions(after, 0x4_0000)| == l2Used + (if s < 0 then 1 else 0)
              && |Regions(after, 512)| == l3Used + (if s < 0 || l2Children[s, Index2(p)] < 0 then 1 else 0)
    {
      hide Regions, Elements, Served, RegionAt, Index1, Index2, TableTree.L1Shape, TableTree.L2Shape, TableTree.L3Shape;
      SplitPage(p);
      ParentsInRange();
      var i, j := Index1(p), Index2(p);
      RegionsAdd(pages, p, desc, 0x4_0000);
      RegionsAdd(pages, p, desc, 512);
      L2AllocatedIffMapped(i);
      L3AllocatedIffMapped(i, j);
      UsedCounts();
    }
  }
}
