/** core/s2_mmu.c: the stage-2 identity builder, for every `u64` argument. */
module Stage2Mmu {
  import opened Words
  import opened Descriptors
  import opened TableTrees
  import opened Ranges

  const MAX_L2: nat := 16
  const MAX_L3: nat := 1024

  /** Slot k starts at `base + k * stride`; `vm` is promoted to `u64` before the product. */
  function SlotStart(base: Word, stride: Word, k: nat): (r: Word)
    ensures r == (base + k * stride) % MOD64
  {
    var offset := k * stride;
    WrapAround(base, offset % MOD64);
    AddModulo(base, offset);
    Add(base, offset % MOD64)
  }

  lemma AddModulo(a: int, b: int)
    ensures (a + b % MOD64) % MOD64 == (a + b) % MOD64
  {
    var c := a + b % MOD64;
    DivModUnique(a + b, MOD64, c / MOD64 + b / MOD64, c % MOD64);
  }

  /** The page map after the first k slots. */
  ghost function Slots(attr: Attr, ipa: Word, pa: Word, size: Word, stride: Word, k: nat): map<int, Word> {
    if k == 0 then map[]
    else MapRange(Slots(attr, ipa, pa, size, stride, k - 1), attr,
                  SlotStart(ipa, stride, k - 1), SlotStart(pa, stride, k - 1), size)
  }

  /** The page map s2_build_tables_identity leaves when its counts are not zero. */
  ghost function Build(attr: Attr, ipa: Word, pa: Word, vmSize: Word, vmCount: nat, guardBytes: Word): map<int, Word> {
    Slots(attr, ipa, pa, AlignUp(vmSize), Add(AlignUp(vmSize), AlignUp(guardBytes)), vmCount)
  }

  lemma {:induction false} FitsEarlierSlot(attr: Attr, ipa: Word, pa: Word, size: Word, stride: Word, k: nat, n: nat, maxL2: nat, maxL3: nat)
    requires k <= n && FitsPools(Slots(attr, ipa, pa, size, stride, n), maxL2, maxL3)
    ensures FitsPools(Slots(attr, ipa, pa, size, stride, k), maxL2, maxL3)
    decreases n - k
  {
    hide FitsPools, AlignUp, AlignDown, PageCount, SlotStart, Sub, Leaf;
    if k < n {
      var before := Slots(attr, ipa, pa, size, stride, n - 1);
      var va, to := SlotStart(ipa, stride, n - 1), SlotStart(pa, stride, n - 1);
      FitsEarlier(before, attr, AlignDown(va), 0, PageCount(va, size), Sub(to, va % 0x1000), maxL2, maxL3);
      FitsEarlierSlot(attr, ipa, pa, size, stride, k, n - 1, maxL2, maxL3);
    }
  }

  /** s2_map_page: afterwards the hardware walk of the selected page gives exactly the requested
      output page and permissions, and the walk of every other address is what it was. */
  method MapPage(t: TableTree, ipa: Word, pa: Word, attr: Attr) returns (ok: bool)
    requires t.Valid() && attr.S2?
    modifies t, t.l1, t.l1Children, t.l2Entries, t.l2Children, t.l3Entries
    ensures ok <==> FitsPools(old(t.pages)[PageOf(ipa) := Leaf(attr, pa)], t.maxL2, t.maxL3)
    ensures ok ==> t.Valid() && t.pages == old(t.pages)[PageOf(ipa) := Leaf(attr, pa)]
    ensures ok ==> forall x: int :: (Translate(Stage2, t.Walk(x), x) ==
                                     if x / 0x1000 == PageOf(ipa)
                                     then Intended(attr, pa / 0x1000 % 0x10_0000_0000 * 0x1000 + x % 0x1000)
                                     else old(Translate(Stage2, t.Walk(x), x)))
  {
    hide PageOf, Leaf, Translate, WalkOf, FitsPools, Elements, Served, Regions, TableTree.Walk;
    hide TableTree.L1Shape, TableTree.L2Shape, TableTree.L3Shape;
    ghost var before := t.pages;
    t.WalkFindsAll();
    ok := t.SetLeaf(ipa, Leaf(attr, pa));
    if ok {
      t.WalkFindsAll();
      forall x: int
        ensures Translate(Stage2, t.Walk(x), x) == MappedPage(before, attr, ipa, pa, x)
      {
        PageMeaning(before, attr, ipa, pa, x);
      }
    }
  }

  /** s2_map_identity_range; false stands for the panic inside alloc_l2 or alloc_l3. */
  method MapIdentityRange(t: TableTree, ipa: Word, pa: Word, size: Word, attr: Attr) returns (ok: bool)
    requires t.Valid() && attr.S2?
    modifies t, t.l1, t.l1Children, t.l2Entries, t.l2Children, t.l3Entries
    ensures ok <==> FitsPools(MapRange(old(t.pages), attr, ipa, pa, size), t.maxL2, t.maxL3)
    ensures ok ==> t.Valid() && t.pages == MapRange(old(t.pages), attr, ipa, pa, size)
  {
    hide AlignUp, AlignDown, PageCount, Leaf, Fill, FitsPools, TableTree.Valid, PageOf, Add, Sub;
    ghost var n := PageCount(ipa, size);
    ValidFits(t);
    CountsPages(ipa, size);
    FillNone(t.pages, attr, AlignDown(ipa), Sub(pa, ipa % 0x1000));
    if size == 0 {
      return true;
    }
    var mapStart := AlignDown(ipa);
    var mapEnd := AlignUp(Add(ipa, size));
    var base := Sub(pa, Sub(ipa, mapStart));
    FillNone(t.pages, attr, mapStart, base);
    assert MapRange(t.pages, attr, ipa, pa, size) == Fill(t.pages, attr, mapStart, n, base);
    ghost var k: nat := 0;
    var cur: int := mapStart;
    while cur < mapEnd
      invariant k <= n && cur == mapStart + k * 0x1000
      invariant k < n <==> cur < mapEnd
      invariant t.Valid() && t.pages == Fill(old(t.pages), attr, mapStart, k, base)
      decreases n - k
    {
      var curPa := Add(base, cur - mapStart);
      FillStep(old(t.pages), attr, mapStart, k, base);
      ok := MapPage(t, cur, curPa, attr);
      if !ok {
        StaysFull(old(t.pages), attr, mapStart, k + 1, n, base, t.maxL2, t.maxL3);
        return;
      }
      cur := cur + 0x1000;
      k := k + 1;
    }
    ok := true;
    ValidFits(t);
  }

  /** s2_build_tables_identity, from any contents of the statics: a build forgets everything the
      tables held before. With an empty argument it touches nothing. */
  method BuildTablesIdentity(t: TableTree, ipa: Word, pa: Word, vmSize: Word, vmCount: nat, guardBytes: Word,
                             read: bool, write: bool, exec: bool)
    returns (ok: bool)
    requires t.Placed()
    modifies t, t.l1, t.l1Children, t.l2Entries, t.l2Children, t.l3Entries
    ensures vmCount == 0 || vmSize == 0 ==>
              ok && unchanged(t, t.l1, t.l1Children, t.l2Entries, t.l2Children, t.l3Entries)
    ensures vmCount > 0 && vmSize > 0 ==>
              var built := Build(S2(read, write, exec), ipa, pa, vmSize, vmCount, guardBytes);
              && (ok <==> FitsPools(built, t.maxL2, t.maxL3))
              && (ok ==> t.Valid() && t.pages == built)
  {
    hide AlignUp, FitsPools, MapRange, Elements, Served, Regions;
    hide TableTree.L1Shape, TableTree.L2Shape, TableTree.L3Shape;
    if vmCount == 0 || vmSize == 0 {
      return true;
    }
    var guard := AlignUp(guardBytes);
    var size := AlignUp(vmSize);
    var attr := S2(read, write, exec);
    ghost var stride := Add(size, guard);
    t.Reset();
    ValidFits(t);
    for vm := 0 to vmCount
      invariant t.Valid() && t.pages == Slots(attr, ipa, pa, size, stride, vm)
    {
      var slotOffset := vm * Add(size, guard) % MOD64;
      ok := MapIdentityRange(t, Add(ipa, slotOffset), Add(pa, slotOffset), size, attr);
      if !ok {
        if FitsPools(Slots(attr, ipa, pa, size, stride, vmCount), t.maxL2, t.maxL3) {
          FitsEarlierSlot(attr, ipa, pa, size, stride, vm + 1, vmCount, t.maxL2, t.maxL3);
        }
        return;
      }
    }
    ok := true;
    ValidFits(t);
  }

  // ----- The build theorem -----

  /** x lies in slot k: no wrap-around, no masks. */
  predicate InSlot(x: int, base: int, size: nat, stride: nat, k: nat) {
    base + k * stride <= x < base + k * stride + size
  }

  /** The slots laid out from base to the end of the last one. */
  function LayoutEnd(base: int, size: nat, stride: nat, count: nat): int {
    if count == 0 then base else base + (count - 1) * stride + size
  }

  lemma {:induction false} SlotsLookup(attr: Attr, ipa: Word, pa: Word, size: Word, stride: Word, n: nat, q: int)
    requires ipa % 0x1000 == 0 && pa % 0x1000 == 0 && size % 0x1000 == 0 && stride % 0x1000 == 0
    requires 0 < size <= stride
    requires LayoutEnd(ipa, size, stride, n) <= INPUT_LIMIT
    requires LayoutEnd(pa, size, stride, n) <= 0x1_0000_0000_0000
    ensures var after := Slots(attr, ipa, pa, size, stride, n);
            && (q in after <==> InSomeSlot(q * 0x1000, ipa, size, stride, n))
            && (q in after ==> 0 <= pa + q * 0x1000 - ipa < MOD64 && after[q] == Leaf(attr, pa + q * 0x1000 - ipa))
  {
    hide Leaf, MapRange, InSlot, InSomeSlot, SlotStart, LayoutEnd;
    LastSlot(q * 0x1000, ipa, size, stride, n);
    if n > 0 {
      SlotsStep(ipa, size, stride, n, INPUT_LIMIT);
      SlotsStep(pa, size, stride, n, 0x1_0000_0000_0000);
      SlotsLookup(attr, ipa, pa, size, stride, n - 1, q);
      var va, to := ipa + (n - 1) * stride, pa + (n - 1) * stride;
      RangeLookup(Slots(attr, ipa, pa, size, stride, n - 1), attr, va, to, size, q);
      InSlotPage(q, va, ipa, size, stride, n - 1);
    }
  }

  lemma LastSlot(x: int, base: int, size: nat, stride: nat, n: nat)
    ensures InSomeSlot(x, base, size, stride, n)
       <==> n > 0 && (InSomeSlot(x, base, size, stride, n - 1) || InSlot(x, base, size, stride, n - 1))
  {
    hide InSlot;
  }

  /** Slot n - 1 starts where C computes it, and the earlier slots end before it. */
  lemma SlotsStep(base: Word, size: Word, stride: Word, n: nat, limit: nat)
    requires base % 0x1000 == 0 && stride % 0x1000 == 0 && n > 0 && size <= stride
    requires LayoutEnd(base, size, stride, n) <= limit < MOD64
    ensures 0 <= base + (n - 1) * stride && base + (n - 1) * stride + size <= limit
    ensures SlotStart(base, stride, n - 1) == base + (n - 1) * stride
    ensures (base + (n - 1) * stride) % 0x1000 == 0
    ensures LayoutEnd(base, size, stride, n - 1) <= base + (n - 1) * stride <= limit
  {
    WholePages(n - 1, stride, base);
    MulMono(0, n - 1, stride);
    if n > 1 {
      assert (n - 1) * stride == (n - 2) * stride + stride;
    }
  }

  lemma WholePages(k: nat, stride: nat, base: int)
    requires stride % 0x1000 == 0 && base % 0x1000 == 0
    ensures (base + k * stride) % 0x1000 == 0
  {
    var m := stride / 0x1000;
    assert stride == m * 0x1000;
    assert k * (m * 0x1000) == k * m * 0x1000;
    DivModUnique(base + k * stride, 0x1000, base / 0x1000 + k * m, 0);
  }

  lemma InSlotPage(q: int, va: Word, base: int, size: Word, stride: nat, k: nat)
    requires va == base + k * stride && va % 0x1000 == 0 && size % 0x1000 == 0
    ensures InSlot(q * 0x1000, base, size, stride, k) <==> va / 0x1000 <= q && q * 0x1000 < va + size
  {
  }

  /** The size of a slot and the distance between slots, rounded up to whole pages. */
  function SlotSize(vmSize: nat): nat { (vmSize + 0xfff) / 0x1000 * 0x1000 }
  function Stride(vmSize: nat, guardBytes: nat): nat { SlotSize(vmSize) + SlotSize(guardBytes) }

  /** No address computed by the build wraps around or leaves the translated space. */
  ghost predicate Representable(ipa: Word, pa: Word, vmSize: Word, vmCount: nat, guardBytes: Word) {
    var size, stride := SlotSize(vmSize), Stride(vmSize, guardBytes);
    && ipa % 0x1000 == 0 && pa % 0x1000 == 0 && vmSize > 0 && vmCount > 0
    && guardBytes + 0xfff < MOD64 && stride < MOD64
    && LayoutEnd(ipa, size, stride, vmCount) <= 0x80_0000_0000
    && LayoutEnd(pa, size, stride, vmCount) <= 0x1_0000_0000_0000
  }

  lemma RoundsUp(x: Word)
    requires x + 0xfff < MOD64
    ensures AlignUp(x) == SlotSize(x)
  {
    hide And;
    RoundsDown(x + 0xfff);
  }

  lemma SizesAgree(ipa: Word, pa: Word, vmSize: Word, n: nat, guardBytes: Word)
    requires Representable(ipa, pa, vmSize, n, guardBytes)
    ensures AlignUp(vmSize) == SlotSize(vmSize) && SlotSize(vmSize) % 0x1000 == 0 && SlotSize(vmSize) >= vmSize
    ensures Add(AlignUp(vmSize), AlignUp(guardBytes)) == Stride(vmSize, guardBytes)
    ensures Stride(vmSize, guardBytes) % 0x1000 == 0 && SlotSize(vmSize) <= Stride(vmSize, guardBytes)
  {
    hide AlignUp;
    assert (n - 1) * Stride(vmSize, guardBytes) >= 0;
    RoundsUp(vmSize);
    RoundsUp(guardBytes);
  }

  predicate InSomeSlot(x: int, base: int, size: nat, stride: nat, n: nat) {
    exists k :: 0 <= k < n && InSlot(x, base, size, stride, k)
  }

  lemma SlotsArePages(x: int, base: int, size: nat, stride: nat, n: nat)
    requires x >= 0 && base % 0x1000 == 0 && size % 0x1000 == 0 && stride % 0x1000 == 0
    ensures InSomeSlot(x, base, size, stride, n) <==> InSomeSlot(x / 0x1000 * 0x1000, base, size, stride, n)
  {
    forall k: nat ensures InSlot(x, base, size, stride, k) <==> InSlot(x / 0x1000 * 0x1000, base, size, stride, k) {
      WholePages(k, stride, base);
    }
  }

  lemma MulMono(a: int, b: int, d: nat)
    requires a <= b
    ensures a * d <= b * d
  {
    assert (b - a) * d >= 0;
  }

  /** A slot lies between the base and the end of the layout, wherever the layout starts. */
  lemma SlotBounds(x: int, base: int, size: nat, stride: nat, n: nat)
    requires InSomeSlot(x, base, size, stride, n)
    ensures base <= x < LayoutEnd(base, size, stride, n)
  {
    var k :| 0 <= k < n && InSlot(x, base, size, stride, k);
    MulMono(0, k, stride);
    MulMono(k, n - 1, stride);
  }

  lemma LayoutGrows(base: int, size: nat, stride: nat, n: nat)
    ensures n > 0 ==> LayoutEnd(base, size, stride, n) >= base + size
  {
    if n > 0 {
      MulMono(0, n - 1, stride);
    }
  }

  lemma OutputFrame(to: Word, frame: nat)
    requires to == frame * 0x1000 && to < 0x1_0000_0000_0000
    ensures to / 0x1000 % 0x10_0000_0000 * 0x1000 == to
  {
  }

  /** The build theorem: an address translates exactly inside the slots, at the constant distance
      pa - ipa and with the requested permissions; all else faults. */
  lemma BuildTranslates(t: TableTree, ipa: Word, pa: Word, vmSize: Word, n: nat, guardBytes: Word,
                        read: bool, write: bool, exec: bool, x: int)
    requires Representable(ipa, pa, vmSize, n, guardBytes)
    requires t.Shape() && t.pages == Build(S2(read, write, exec), ipa, pa, vmSize, n, guardBytes)
    ensures Translate(Stage2, t.Walk(x), x) ==
            if InSomeSlot(x, ipa, SlotSize(vmSize), Stride(vmSize, guardBytes), n)
            then Mapped(pa + (x - ipa), read, write, exec) else Fault
  {
    hide AlignUp, InSomeSlot, SlotSize, Stride, LayoutEnd, Slots, Leaf, And, Bit;
    hide TableTree.L1Shape, TableTree.L2Shape, TableTree.L3Shape, TableTree.Walk;
    var attr, size, stride := S2(read, write, exec), SlotSize(vmSize), Stride(vmSize, guardBytes);
    SizesAgree(ipa, pa, vmSize, n, guardBytes);
    t.WalkFinds(x);
    if InSomeSlot(x, ipa, size, stride, n) {
      SlotBounds(x, ipa, size, stride, n);
    }
    if 0 <= x < INPUT_LIMIT {
      var q := x / 0x1000;
      SlotsArePages(x, ipa, size, stride, n);
      PageBuilt(attr, ipa, pa, size, stride, n, q);
      if q in t.pages {
        LeafDecodes(attr, pa + q * 0x1000 - ipa, x);
      }
    }
  }

  /** SlotsLookup for one page, with its output address. */
  lemma PageBuilt(attr: Attr, ipa: Word, pa: Word, size: Word, stride: Word, n: nat, q: int)
    requires ipa % 0x1000 == 0 && pa % 0x1000 == 0 && size % 0x1000 == 0 && stride % 0x1000 == 0
    requires 0 < size <= stride
    requires LayoutEnd(ipa, size, stride, n) <= INPUT_LIMIT
    requires LayoutEnd(pa, size, stride, n) <= 0x1_0000_0000_0000
    ensures var after, to := Slots(attr, ipa, pa, size, stride, n), pa + q * 0x1000 - ipa;
            && (q in after <==> InSomeSlot(q * 0x1000, ipa, size, stride, n))
            && (q in after ==> 0 <= to < MOD64 && after[q] == Leaf(attr, to)
                               && to / 0x1000 % 0x10_0000_0000 * 0x1000 == to)
  {
    hide InSlot, Slots, Leaf, LayoutEnd;
    SlotsLookup(attr, ipa, pa, size, stride, n, q);
    if q in Slots(attr, ipa, pa, size, stride, n) {
      SlotShift(q * 0x1000, ipa, pa, size, stride, n);
      SlotBounds(pa + q * 0x1000 - ipa, pa, size, stride, n);
      OutputFrame(pa + q * 0x1000 - ipa, pa / 0x1000 + q - ipa / 0x1000);
    }
  }

  lemma SlotShift(x: int, base: int, base': int, size: nat, stride: nat, n: nat)
    requires InSomeSlot(x, base, size, stride, n)
    ensures InSomeSlot(base' + x - base, base', size, stride, n)
  {
    var k :| 0 <= k < n && InSlot(x, base, size, stride, k);
    assert InSlot(base' + x - base, base', size, stride, k);
  }

  /** The bytes between slot k and slot k + 1 belong to no slot, so they fault. */
  lemma GuardBytesAreInNoSlot(x: int, base: int, size: nat, stride: nat, n: nat, k: nat)
    requires size <= stride && base + k * stride + size <= x < base + (k + 1) * stride
    ensures !InSomeSlot(x, base, size, stride, n)
  {
    forall j | 0 <= j < n ensures !InSlot(x, base, size, stride, j) {
      if j <= k {
        MulMono(j, k, stride);
      } else {
        MulMono(k + 1, j, stride);
      }
    }
  }

  /** Slot separation: addresses of different slots translate to different physical pages, so no
      two VMs share memory. */
  lemma SlotsAreSeparate(t: TableTree, ipa: Word, pa: Word, vmSize: Word, n: nat, guardBytes: Word,
                         read: bool, write: bool, exec: bool, x: int, j: nat, y: int, k: nat)
    requires Representable(ipa, pa, vmSize, n, guardBytes)
    requires t.Shape() && t.pages == Build(S2(read, write, exec), ipa, pa, vmSize, n, guardBytes)
    requires j < n && k < n && j != k
    requires InSlot(x, ipa, SlotSize(vmSize), Stride(vmSize, guardBytes), j)
    requires InSlot(y, ipa, SlotSize(vmSize), Stride(vmSize, guardBytes), k)
    ensures var tx, ty := Translate(Stage2, t.Walk(x), x), Translate(Stage2, t.Walk(y), y);
            tx.Mapped? && ty.Mapped? && tx.pa / 0x1000 != ty.pa / 0x1000
  {
    hide AlignUp, InSlot, SlotSize, Stride, LayoutEnd, Slots, Translate, TableTree.Walk;
    hide TableTree.L1Shape, TableTree.L2Shape, TableTree.L3Shape;
    var size, stride := SlotSize(vmSize), Stride(vmSize, guardBytes);
    BuildTranslates(t, ipa, pa, vmSize, n, guardBytes, read, write, exec, x);
    BuildTranslates(t, ipa, pa, vmSize, n, guardBytes, read, write, exec, y);
    SizesAgree(ipa, pa, vmSize, n, guardBytes);
    SlotMoved(x, ipa, pa, size, stride, j);
    SlotMoved(y, ipa, pa, size, stride, k);
    if j < k {
      PagesApart(pa + (x - ipa), j, pa + (y - ipa), k, pa, size, stride);
    } else {
      PagesApart(pa + (y - ipa), k, pa + (x - ipa), j, pa, size, stride);
    }
  }

  lemma SlotMoved(x: int, base: int, base': int, size: nat, stride: nat, k: nat)
    requires InSlot(x, base, size, stride, k)
    ensures InSlot(base' + (x - base), base', size, stride, k)
  {
  }

  /** A page boundary lies between two slots. */
  lemma PagesApart(x: int, j: nat, y: int, k: nat, base: int, size: nat, stride: nat)
    requires base % 0x1000 == 0 && stride % 0x1000 == 0 && size <= stride && j < k
    requires InSlot(x, base, size, stride, j) && InSlot(y, base, size, stride, k)
    ensures x / 0x1000 < y / 0x1000
  {
    MulMono(j + 1, k, stride);
    WholePages(k, stride, base);
    var border := (base + k * stride) / 0x1000;
    assert base + k * stride == border * 0x1000;
    assert x < border * 0x1000 <= y;
  }

  // ----- Pool bounds -----

  /** A layout that starts and ends within few enough aligned regions never exhausts the pools. */
  lemma BuildFits(attr: Attr, ipa: Word, pa: Word, vmSize: Word, n: nat, guardBytes: Word, maxL2: nat, maxL3: nat)
    requires Representable(ipa, pa, vmSize, n, guardBytes)
    requires var last := LayoutEnd(ipa, SlotSize(vmSize), Stride(vmSize, guardBytes), n) - 1;
             && last / 0x4000_0000 - ipa / 0x4000_0000 < maxL2
             && last / 0x20_0000 - ipa / 0x20_0000 < maxL3
    ensures FitsPools(Build(attr, ipa, pa, vmSize, n, guardBytes), maxL2, maxL3)
  {
    hide AlignUp, SlotSize, Stride, LayoutEnd, Slots, Leaf, InSomeSlot;
    var size, stride := SlotSize(vmSize), Stride(vmSize, guardBytes);
    var pages := Build(attr, ipa, pa, vmSize, n, guardBytes);
    var last := LayoutEnd(ipa, size, stride, n) - 1;
    SizesAgree(ipa, pa, vmSize, n, guardBytes);
    LayoutGrows(ipa, size, stride, n);
    forall q | q in pages ensures ipa / 0x1000 <= q <= last / 0x1000 {
      PageBuilt(attr, ipa, pa, size, stride, n, q);
      SlotBounds(q * 0x1000, ipa, size, stride, n);
    }
    RegionsBetween(pages, ipa, last);
    CardWithin(Regions(pages, 0x4_0000), ipa / 0x4000_0000, last / 0x4000_0000 + 1);
    CardWithin(Regions(pages, 512), ipa / 0x20_0000, last / 0x20_0000 + 1);
  }

  lemma RegionsBetween(pages: map<int, Word>, first: nat, last: int)
    requires forall q :: q in pages ==> first / 0x1000 <= q <= last / 0x1000
    ensures forall r :: r in Regions(pages, 0x4_0000) ==> first / 0x4000_0000 <= r < last / 0x4000_0000 + 1
    ensures forall r :: r in Regions(pages, 512) ==> first / 0x20_0000 <= r < last / 0x20_0000 + 1
  {
    assert first / 0x1000 / 0x4_0000 == first / 0x4000_0000 && last / 0x1000 / 0x4_0000 == last / 0x4000_0000;
    assert first / 0x1000 / 512 == first / 0x20_0000 && last / 0x1000 / 512 == last / 0x20_0000;
  }

  /** The one slot el2_main builds: 1GB at 0x4000_0000, readable, writable and executable. */
  method BuildBootTables(t: TableTree) returns (ok: bool)
    requires t.Placed() && t.maxL2 == 16 && t.maxL3 == 1024
    modifies t, t.l1, t.l1Children, t.l2Entries, t.l2Children, t.l3Entries
    ensures ok && t.Valid()
    ensures forall x: int :: (Translate(Stage2, t.Walk(x), x) ==
                              if 0x4000_0000 <= x < 0x8000_0000 then Mapped(x, true, true, true) else Fault)
  {
    hide Representable, LayoutEnd, SlotSize, Stride, InSomeSlot, Build, FitsPools, Translate, TableTree.Walk;
    hide TableTree.L1Shape, TableTree.L2Shape, TableTree.L3Shape, Elements, Served, Regions;
    ok := BuildTablesIdentity(t, 0x4000_0000, 0x4000_0000, 0x4000_0000, 1, 0x2000, true, true, true);
    BootLayout();
    BuildFits(S2(true, true, true), 0x4000_0000, 0x4000_0000, 0x4000_0000, 1, 0x2000, MAX_L2, MAX_L3);
    forall x: int
      ensures Translate(Stage2, t.Walk(x), x) ==
              if 0x4000_0000 <= x < 0x8000_0000 then Mapped(x, true, true, true) else Fault
    {
      BuildTranslates(t, 0x4000_0000, 0x4000_0000, 0x4000_0000, 1, 0x2000, true, true, true, x);
      BootSlot(x);
    }
  }

  lemma BootLayout()
    ensures Representable(0x4000_0000, 0x4000_0000, 0x4000_0000, 1, 0x2000)
    ensures LayoutEnd(0x4000_0000, SlotSize(0x4000_0000), Stride(0x4000_0000, 0x2000), 1) == 0x8000_0000
  {
  }

  lemma BootSlot(x: int)
    ensures InSomeSlot(x, 0x4000_0000, SlotSize(0x4000_0000), Stride(0x4000_0000, 0x2000), 1)
       <==> 0x4000_0000 <= x < 0x8000_0000
  {
    assert InSlot(x, 0x4000_0000, 0x4000_0000, 0x4000_2000, 0) <==> 0x4000_0000 <= x < 0x8000_0000;
  }
}
