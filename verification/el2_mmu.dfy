/** core/el2_mmu.c and the image mapping in core/main.c: EL2's own stage-1 tables. */
module El2Mmu {
  import opened Words
  import opened Descriptors
  import opened TableTrees
  import opened Ranges

  const MAX_L2: nat := 16
  const MAX_L3: nat := 64
  const NORMAL_WB: nat := 0
  const DEVICE_NGNRE: nat := 1

  /** One el2_map_range call. */
  datatype Call = Call(va: Word, pa: Word, size: Word, attrIdx: nat, ro: bool, exec: bool) {
    function Attr(): Attr { El2(attrIdx, ro, exec) }

    /** The call touches page q. */
    predicate Covers(q: int) {
      size > 0 && va / 0x1000 <= q && q * 0x1000 < va + size
    }

    /** The descriptor it leaves there. */
    function LeafFor(q: int): Word {
      Leaf(Attr(), Add(Sub(pa, va % 0x1000), (q - va / 0x1000) * 0x1000 % MOD64))
    }

    predicate InRange() { va + size <= 0x80_0000_0000 }
  }

  /** The page map after the calls, in order. */
  ghost function Fold(pages: map<int, Word>, calls: seq<Call>): map<int, Word> {
    if calls == [] then pages
    else
      var c := calls[|calls| - 1];
      MapRange(Fold(pages, calls[..|calls| - 1]), c.Attr(), c.va, c.pa, c.size)
  }

  /** The last call that covers page q, or -1. */
  function LastWriter(calls: seq<Call>, q: int): (w: int)
    ensures -1 <= w < |calls|
    ensures w >= 0 ==> calls[w].Covers(q)
    ensures forall i :: w < i < |calls| ==> !calls[i].Covers(q)
  {
    if calls == [] then -1
    else if calls[|calls| - 1].Covers(q) then |calls| - 1
    else LastWriter(calls[..|calls| - 1], q)
  }

  /** For any list of overlapping calls over any map, each page holds what its last writer stored,
      and a page that no call covers what it held before. */
  lemma {:induction false} LastWriterWins(pages: map<int, Word>, calls: seq<Call>, q: int)
    requires forall i :: 0 <= i < |calls| ==> calls[i].InRange()
    ensures var w := LastWriter(calls, q);
            Lookup(Fold(pages, calls), q) == if w < 0 then Lookup(pages, q) else calls[w].LeafFor(q)
    ensures q in Fold(pages, calls) <==> q in pages || LastWriter(calls, q) >= 0
  {
    hide Leaf, MapRange, Add, Sub;
    if calls != [] {
      var n := |calls| - 1;
      var c := calls[n];
      LastWriterWins(pages, calls[..n], q);
      RangeLookup(Fold(pages, calls[..n]), c.Attr(), c.va, c.pa, c.size, q);
      if c.Covers(q) {
        assert (q - c.va / 0x1000) * 0x1000 % MOD64 == (q - c.va / 0x1000) * 0x1000;
      }
    }
  }

  /** map_page: like s2_map_page, under the stage-1 regime. */
  method MapPage(t: TableTree, va: Word, pa: Word, attr: Attr) returns (ok: bool)
    requires t.Valid() && attr.El2?
    modifies t, t.l1, t.l1Children, t.l2Entries, t.l2Children, t.l3Entries
    ensures ok <==> FitsPools(old(t.pages)[PageOf(va) := Leaf(attr, pa)], t.maxL2, t.maxL3)
    ensures ok ==> t.Valid() && t.pages == old(t.pages)[PageOf(va) := Leaf(attr, pa)]
    ensures ok ==> forall x: int :: (Translate(El2Stage1, t.Walk(x), x) ==
                                     if x / 0x1000 == PageOf(va)
                                     then Intended(attr, pa / 0x1000 % 0x10_0000_0000 * 0x1000 + x % 0x1000)
                                     else old(Translate(El2Stage1, t.Walk(x), x)))
  {
    hide PageOf, Leaf, Translate, WalkOf, FitsPools, Elements, Served, Regions, TableTree.Walk;
    hide TableTree.L1Shape, TableTree.L2Shape, TableTree.L3Shape;
    ghost var before := t.pages;
    t.WalkFindsAll();
    ok := t.SetLeaf(va, Leaf(attr, pa));
    if ok {
      t.WalkFindsAll();
      forall x: int
        ensures Translate(El2Stage1, t.Walk(x), x) == MappedPage(before, attr, va, pa, x)
      {
        PageMeaning(before, attr, va, pa, x);
      }
    }
  }

  /** el2_map_range; false stands for el2_pt_hang. */
  method MapRangeCall(t: TableTree, c: Call) returns (ok: bool)
    requires t.Valid()
    modifies t, t.l1, t.l1Children, t.l2Entries, t.l2Children, t.l3Entries
    ensures ok <==> FitsPools(MapRange(old(t.pages), c.Attr(), c.va, c.pa, c.size), t.maxL2, t.maxL3)
    ensures ok ==> t.Valid() && t.pages == MapRange(old(t.pages), c.Attr(), c.va, c.pa, c.size)
  {
    hide AlignUp, AlignDown, PageCount, Leaf, Fill, FitsPools, TableTree.Valid, PageOf, Add, Sub;
    var attr := c.Attr();
    ghost var n := PageCount(c.va, c.size);
    ValidFits(t);
    CountsPages(c.va, c.size);
    FillNone(t.pages, attr, AlignDown(c.va), Sub(c.pa, c.va % 0x1000));
    if c.size == 0 {
      return true;
    }
    var offset := And(c.va, 0xfff);
    AndLowMasks(c.va);
    var va := c.va - offset;
    RoundsDown(c.va);
    StartIs(c.va);
    var base := Sub(c.pa, offset);
    var limit := AlignUp(Add(c.va, c.size));
    assert MapRange(t.pages, attr, c.va, c.pa, c.size) == Fill(t.pages, attr, va, n, base);
    ghost var k: nat := 0;
    var cur: int := va;
    while cur < limit
      invariant k <= n && cur == va + k * 0x1000
      invariant k < n <==> cur < limit
      invariant t.Valid() && t.pages == Fill(old(t.pages), attr, va, k, base)
      decreases n - k
    {
      var curPa := Add(base, cur - va);
      FillStep(old(t.pages), attr, va, k, base);
      ok := MapPage(t, cur, curPa, attr);
      if !ok {
        StaysFull(old(t.pages), attr, va, k + 1, n, base, t.maxL2, t.maxL3);
        return;
      }
      cur := cur + 0x1000;
      k := k + 1;
    }
    ok := true;
    ValidFits(t);
  }

  lemma StartIs(va: Word)
    ensures AlignDown(va) == va - va % 0x1000
  {
  }

  // ----- The EL2 image -----

  const IMAGE_BASE: Word := 0x4000_0000
  const UART_PA: Word := 0x0900_0000
  const UART_SIZE: Word := 0x1000
  const STACK_SIZE: Word := 0x8000

  function PageUp(x: nat): nat { (x + 0xfff) / 0x1000 * 0x1000 }

  /** The section sizes the linker finds; linker.ld places them in this order. */
  datatype Image = Image(text: nat, rodata: nat, data: nat, bss: nat) {
    // Each section starts one guard page after the page-aligned end of the one before.
    function TextStart(): nat { IMAGE_BASE }
    function RodataStart(): nat { PageUp(TextStart() + text) + 0x1000 }
    function DataStart(): nat { PageUp(RodataStart() + rodata) + 0x1000 }
    function BssStart(): nat { PageUp(DataStart() + data) + 0x1000 }
    function StackGuard(): nat { PageUp(BssStart() + bss) }
    function StackBottom(): nat { StackGuard() + 0x1000 }
    function StackTop(): nat { StackBottom() + STACK_SIZE }

    predicate Fits() { StackTop() <= 0x80_0000_0000 }

    lemma Order()
      ensures TextStart() + text <= PageUp(TextStart() + text) == RodataStart() - 0x1000
      ensures RodataStart() + rodata <= PageUp(RodataStart() + rodata) == DataStart() - 0x1000
      ensures DataStart() + data <= PageUp(DataStart() + data) == BssStart() - 0x1000
      ensures BssStart() + bss <= PageUp(BssStart() + bss) == StackGuard()
    {
    }
  }

  function Identity(start: Word, size: Word, attrIdx: nat, ro: bool, exec: bool): Call {
    Call(start, start, size, attrIdx, ro, exec)
  }

  /** The six calls of el2_main. */
  function ImageCalls(im: Image): (calls: seq<Call>)
    requires im.Fits()
    ensures forall i :: 0 <= i < |calls| ==> calls[i].InRange()
  {
    im.Order();
    [Identity(im.TextStart(), im.text, NORMAL_WB, true, true),
     Identity(im.RodataStart(), im.rodata, NORMAL_WB, true, false),
     Identity(im.DataStart(), im.data, NORMAL_WB, false, false),
     Identity(im.BssStart(), im.bss, NORMAL_WB, false, false),
     Identity(im.StackBottom(), STACK_SIZE, NORMAL_WB, false, false),
     Identity(UART_PA, UART_SIZE, DEVICE_NGNRE, false, false)]
  }

  /** A byte lands at distance pa - va rounded down to whole pages, so at pa + (x - va) itself exactly
      when pa and va agree modulo 4KB. */
  lemma CallTranslates(c: Call, x: int)
    requires c.InRange() && c.Covers(x / 0x1000)
    requires c.va % 0x1000 <= c.pa && c.pa + c.size <= 0x1_0000_0000_0000
    ensures Translate(El2Stage1, Found(c.LeafFor(x / 0x1000), 0x1000), x)
         == Mapped(c.pa + (x - c.va) - (c.pa - c.va) % 0x1000, true, !c.ro, c.exec)
    ensures c.LeafFor(x / 0x1000) % 4 == 3
  {
    hide Leaf, Translate;
    var q, first, base := x / 0x1000, c.va / 0x1000, c.pa - c.va % 0x1000;
    var to := base + (q - first) * 0x1000;
    assert (q - first) * 0x1000 % MOD64 == (q - first) * 0x1000;
    assert c.LeafFor(q) == Leaf(c.Attr(), to);
    DivModUnique(to, 0x1000, base / 0x1000 + (q - first), base % 0x1000);
    DivModUnique(c.pa - c.va, 0x1000, base / 0x1000 - first, base % 0x1000);
    LeafDecodes(c.Attr(), to, x);
  }

  /** When pa and va agree modulo 4KB, every byte of the touched pages keeps its distance. */
  lemma CongruentCall(c: Call, x: int)
    requires c.InRange() && c.Covers(x / 0x1000)
    requires c.pa % 0x1000 == c.va % 0x1000 && c.pa + c.size <= 0x1_0000_0000_0000
    ensures Translate(El2Stage1, Found(c.LeafFor(x / 0x1000), 0x1000), x)
         == Mapped(c.pa + (x - c.va), true, !c.ro, c.exec)
    ensures c.LeafFor(x / 0x1000) % 4 == 3
  {
    hide Leaf, Translate, Call.Covers, Call.LeafFor;
    DivModUnique(c.pa - c.va, 0x1000, c.pa / 0x1000 - c.va / 0x1000, 0);
    CallTranslates(c, x);
  }

  lemma SectionCovers(start: nat, size: nat, x: int)
    requires start % 0x1000 == 0
    ensures size > 0 && start / 0x1000 <= x / 0x1000 && x / 0x1000 * 0x1000 < start + size
       <==> start <= x < PageUp(start + size)
  {
    var m := PageUp(start + size) / 0x1000;
    assert PageUp(start + size) == m * 0x1000;
    if size > 0 {
      assert (m - 1) * 0x1000 < start + size <= m * 0x1000;
    } else {
      assert m == start / 0x1000;
    }
  }

  /** The intended view of EL2's address space: whole pages, one guard page between sections. */
  function ImageAccess(im: Image, x: int): Translation {
    if im.TextStart() <= x < PageUp(im.TextStart() + im.text) then Mapped(x, true, false, true)
    else if im.RodataStart() <= x < PageUp(im.RodataStart() + im.rodata) then Mapped(x, true, false, false)
    else if || im.DataStart() <= x < PageUp(im.DataStart() + im.data)
            || im.BssStart() <= x < PageUp(im.BssStart() + im.bss)
            || im.StackBottom() <= x < im.StackTop()
            || UART_PA <= x < UART_PA + UART_SIZE then Mapped(x, true, true, false)
    else Fault
  }

  /** Which call covers which part of the image. */
  lemma CallsCover(im: Image, x: int)
    requires im.Fits()
    ensures var calls, q := ImageCalls(im), x / 0x1000;
            && |calls| == 6
            && (calls[0].Covers(q) <==> im.TextStart() <= x < PageUp(im.TextStart() + im.text))
            && (calls[1].Covers(q) <==> im.RodataStart() <= x < PageUp(im.RodataStart() + im.rodata))
            && (calls[2].Covers(q) <==> im.DataStart() <= x < PageUp(im.DataStart() + im.data))
            && (calls[3].Covers(q) <==> im.BssStart() <= x < PageUp(im.BssStart() + im.bss))
            && (calls[4].Covers(q) <==> im.StackBottom() <= x < im.StackTop())
            && (calls[5].Covers(q) <==> UART_PA <= x < UART_PA + UART_SIZE)
  {
    hide PageUp;
    hide Image.RodataStart, Image.DataStart, Image.BssStart, Image.StackBottom;
    Starts(im);
    SectionCovers(im.TextStart(), im.text, x);
    SectionCovers(im.RodataStart(), im.rodata, x);
    SectionCovers(im.DataStart(), im.data, x);
    SectionCovers(im.BssStart(), im.bss, x);
    SectionCovers(im.StackBottom(), STACK_SIZE, x);
    SectionCovers(UART_PA, UART_SIZE, x);
  }

  /** The sections do not meet, so the last call that covers an address is the only one. */
  lemma OneWriter(im: Image, x: int)
    requires im.Fits()
    ensures var calls := ImageCalls(im); var w := LastWriter(calls, x / 0x1000);
            && ImageAccess(im, x) == (if w < 0 then Fault else Mapped(x, true, !calls[w].ro, calls[w].exec))
            && (w >= 0 ==> calls[w].pa == calls[w].va && 0 <= x < INPUT_LIMIT)
  {
    hide PageUp, LastWriter;
    hide Call.Covers;
    im.Order();
    CallsCover(im, x);
    var w := LastWriter(ImageCalls(im), x / 0x1000);
    assert w == -1 || w == 0 || w == 1 || w == 2 || w == 3 || w == 4 || w == 5;
  }

  /** What the page map of the six calls gives each address. */
  lemma ImageMeaning(im: Image, x: int)
    requires im.Fits()
    ensures Translate(El2Stage1, WalkOf(Fold(map[], ImageCalls(im)), x), x) == ImageAccess(im, x)
  {
    hide Leaf, Translate, Fold, PageUp, ImageAccess, ImageCalls, LastWriter;
    hide Call.LeafFor;
    var calls, q := ImageCalls(im), x / 0x1000;
    OneWriter(im, x);
    NoLeafFaults(x);
    LastWriterWins(map[], calls, q);
    var w := LastWriter(calls, q);
    if w >= 0 {
      CongruentCall(calls[w], x);
    }
  }

  lemma NoLeafFaults(x: int)
    ensures Translate(El2Stage1, NoLeaf, x) == Fault
  {
  }

  lemma Starts(im: Image)
    ensures im.RodataStart() % 0x1000 == 0 && im.DataStart() % 0x1000 == 0 && im.BssStart() % 0x1000 == 0
    ensures im.StackBottom() % 0x1000 == 0 && PageUp(im.StackTop()) == im.StackTop()
    ensures PageUp(UART_PA + UART_SIZE) == UART_PA + UART_SIZE
  {
    hide PageUp;
    PageUpAligned(im.TextStart() + im.text);
    PageUpAligned(im.RodataStart() + im.rodata);
    PageUpAligned(im.DataStart() + im.data);
    PageUpAligned(im.BssStart() + im.bss);
    PageUpAligned(im.StackTop());
    PageUpAligned(UART_PA + UART_SIZE);
  }

  /** The least page boundary not below x. */
  lemma PageUpRounds(x: nat)
    ensures x <= PageUp(x) < x + 0x1000 && PageUp(x) % 0x1000 == 0
  {
  }

  lemma PageUpAligned(x: nat)
    ensures PageUp(x) % 0x1000 == 0 && (PageUp(x) + 0x1000) % 0x1000 == 0
    ensures x % 0x1000 == 0 ==> PageUp(x) == x
  {
  }

  /** How EL2 sees address x once the six calls have been made. */
  ghost function ImageView(im: Image, x: int): Translation
    requires im.Fits()
  {
    Translate(El2Stage1, WalkOf(Fold(map[], ImageCalls(im)), x), x)
  }

  /** No page of the tables the six calls build is both writable and executable. */
  lemma WriteXorExecute(im: Image, x: int)
    requires im.Fits()
    ensures var a := ImageView(im, x); a.Mapped? ==> !(a.write && a.exec)
  {
    hide PageUp, Translate, WalkOf, Fold, ImageCalls;
    ImageMeaning(im, x);
  }

  /** In those tables every byte of every section maps to itself with its section's permissions, and
      the guard pages between sections and below the stack fault. */
  lemma SectionsAndGuards(im: Image, x: int)
    requires im.Fits()
    ensures im.TextStart() <= x < im.TextStart() + im.text ==> ImageView(im, x) == Mapped(x, true, false, true)
    ensures im.RodataStart() <= x < im.RodataStart() + im.rodata ==> ImageView(im, x) == Mapped(x, true, false, false)
    ensures im.DataStart() <= x < im.DataStart() + im.data ==> ImageView(im, x) == Mapped(x, true, true, false)
    ensures im.BssStart() <= x < im.BssStart() + im.bss ==> ImageView(im, x) == Mapped(x, true, true, false)
    ensures im.StackBottom() <= x < im.StackTop() ==> ImageView(im, x) == Mapped(x, true, true, false)
    ensures UART_PA <= x < UART_PA + UART_SIZE ==> ImageView(im, x) == Mapped(x, true, true, false)
    ensures im.RodataStart() - 0x1000 <= x < im.RodataStart() ==> ImageView(im, x) == Fault
    ensures im.DataStart() - 0x1000 <= x < im.DataStart() ==> ImageView(im, x) == Fault
    ensures im.BssStart() - 0x1000 <= x < im.BssStart() ==> ImageView(im, x) == Fault
    ensures im.StackGuard() <= x < im.StackBottom() ==> ImageView(im, x) == Fault
  {
    hide PageUp, Translate, WalkOf, Fold, ImageCalls;
    im.Order();
    ImageMeaning(im, x);
  }

  /** The same in numbers: code is executable from 0x4000_0000, the 32KB below the stack top and the
      4KB of the UART are writable, the page below the stack faults, and only the UART is device memory. */
  lemma ImageNumbers(im: Image, x: int)
    requires im.Fits()
    ensures 0x4000_0000 <= x < 0x4000_0000 + im.text ==> ImageView(im, x) == Mapped(x, true, false, true)
    ensures im.StackTop() - 0x8000 <= x < im.StackTop() ==> ImageView(im, x) == Mapped(x, true, true, false)
    ensures im.StackTop() - 0x9000 <= x < im.StackTop() - 0x8000 ==> ImageView(im, x) == Fault
    ensures 0x0900_0000 <= x < 0x0900_1000 ==> ImageView(im, x) == Mapped(x, true, true, false)
    ensures x < 0x0900_0000 || 0x0900_1000 <= x < 0x4000_0000 ==> ImageView(im, x) == Fault
    ensures forall c :: c in ImageCalls(im) ==> c.attrIdx == if c.va == 0x0900_0000 then 1 else 0
  {
    hide PageUp, Translate, WalkOf, Fold;
    im.Order();
    ImageMeaning(im, x);
  }

  /** An image whose stack ends within 63 level-3 tables of its base always fits the pools: the
      UART takes one more. */
  lemma ImageFits(im: Image)
    requires im.StackTop() <= 0x4000_0000 + 63 * 0x20_0000
    ensures im.Fits() && FitsPools(Fold(map[], ImageCalls(im)), 16, 64)
  {
    hide LastWriter, Fold, ImageCalls;
    var pages := Fold(map[], ImageCalls(im));
    forall q | q in pages ensures q == UART_PA / 0x1000 || IMAGE_BASE <= q * 0x1000 < IMAGE_BASE + 63 * 0x20_0000 {
      LastWriterWins(map[], ImageCalls(im), q);
      WrittenPages(im, q);
    }
    var uart1, uart2 := UART_PA / 0x4000_0000, UART_PA / 0x20_0000;
    var r1, r2 := Regions(pages, 0x4_0000), Regions(pages, 512);
    var base1, base2 := IMAGE_BASE / 0x4000_0000, IMAGE_BASE / 0x20_0000;
    CardWithin(r1 - {uart1}, base1, base1 + 1);
    CardWithin(r2 - {uart2}, base2, base2 + 63);
    OneLess(r1, uart1);
    OneLess(r2, uart2);
  }

  lemma OneLess(s: set<int>, e: int)
    ensures |s| <= |s - {e}| + 1
  {
    if e in s {
      assert s == (s - {e}) + {e};
    } else {
      assert s - {e} == s;
    }
  }

  /** The calls write the UART page and pages from the image base to the stack top. */
  lemma WrittenPages(im: Image, q: int)
    requires im.Fits() && LastWriter(ImageCalls(im), q) >= 0
    ensures q == UART_PA / 0x1000 || IMAGE_BASE <= q * 0x1000 < im.StackTop()
  {
    hide LastWriter, PageUp;
    im.Order();
    CallsCover(im, q * 0x1000);
    var w := LastWriter(ImageCalls(im), q);
    assert w == 0 || w == 1 || w == 2 || w == 3 || w == 4 || w == 5;
  }

  /** Any sequence of el2_map_range calls, as el2_main makes them: the table is the list folded, and
      on a fresh table the walk of every address finds what the last call covering it stored. */
  method MapCalls(t: TableTree, calls: seq<Call>) returns (ok: bool)
    requires t.Valid()
    modifies t, t.l1, t.l1Children, t.l2Entries, t.l2Children, t.l3Entries
    ensures ok <==> FitsPools(Fold(old(t.pages), calls), t.maxL2, t.maxL3)
    ensures ok ==> t.Valid() && t.pages == Fold(old(t.pages), calls)
    ensures ok && old(t.pages) == map[] && (forall i :: 0 <= i < |calls| ==> calls[i].InRange()) ==>
              forall x: int :: t.Walk(x) == LastWalk(calls, x)
  {
    hide FitsPools, MapRange, LastWalk, WalkOf, TableTree.Walk, Elements, Served, Regions;
    hide TableTree.L1Shape, TableTree.L2Shape, TableTree.L3Shape;
    ghost var before := t.pages;
    ValidFits(t);
    for i := 0 to |calls|
      invariant t.Valid() && t.pages == Fold(before, calls[..i])
    {
      assert calls[..i + 1][..i] == calls[..i];
      ok := MapRangeCall(t, calls[i]);
      if !ok {
        FoldStaysFull(before, calls, i + 1, t.maxL2, t.maxL3);
        return;
      }
    }
    assert calls[..|calls|] == calls;
    ok := true;
    ValidFits(t);
    t.WalkFindsAll();
    if before == map[] && forall i :: 0 <= i < |calls| ==> calls[i].InRange() {
      forall x: int ensures t.Walk(x) == LastWalk(calls, x) {
        LastWriterWalks(calls, x);
      }
    }
  }

  /** The walk of address x that the last call covering its page calls for. */
  function LastWalk(calls: seq<Call>, x: int): Walked {
    var w := LastWriter(calls, x / 0x1000);
    if 0 <= x < INPUT_LIMIT && w >= 0 then Found(calls[w].LeafFor(x / 0x1000), 0x1000) else NoLeaf
  }

  lemma LastWriterWalks(calls: seq<Call>, x: int)
    requires forall i :: 0 <= i < |calls| ==> calls[i].InRange()
    ensures WalkOf(Fold(map[], calls), x) == LastWalk(calls, x)
  {
    hide Fold, LastWriter, Leaf, Add, Sub;
    var q := x / 0x1000;
    LastWriterWins(map[], calls, q);
    var w := LastWriter(calls, q);
    if w >= 0 {
      var c := calls[w];
      LeafDecodes(c.Attr(), Add(Sub(c.pa, c.va % 0x1000), (q - c.va / 0x1000) * 0x1000 % MOD64), x);
    }
  }

  /** el2_mmu_init and the six mapping calls of el2_main. */
  method MapImage(t: TableTree, im: Image) returns (ok: bool)
    requires t.Placed() && im.Fits()
    modifies t, t.l1, t.l1Children, t.l2Entries, t.l2Children, t.l3Entries
    ensures ok <==> FitsPools(Fold(map[], ImageCalls(im)), t.maxL2, t.maxL3)
    ensures ok ==> t.Valid() && forall x: int :: Translate(El2Stage1, t.Walk(x), x) == ImageAccess(im, x)
  {
    hide FitsPools, Fold, ImageCalls, ImageAccess, Translate, WalkOf, TableTree.Walk, Elements, Served, Regions;
    hide TableTree.L1Shape, TableTree.L2Shape, TableTree.L3Shape;
    t.Reset();
    ok := MapCalls(t, ImageCalls(im));
    if ok {
      t.WalkFindsAll();
      forall x: int ensures Translate(El2Stage1, t.Walk(x), x) == ImageAccess(im, x) {
        ImageMeaning(im, x);
      }
    }
  }

  /** Once the calls have overrun the pools, no further call makes them fit. */
  lemma {:induction false} FoldStaysFull(pages: map<int, Word>, calls: seq<Call>, k: nat, maxL2: nat, maxL3: nat)
    requires k <= |calls| && !FitsPools(Fold(pages, calls[..k]), maxL2, maxL3)
    ensures !FitsPools(Fold(pages, calls), maxL2, maxL3)
    decreases |calls|
  {
    hide FitsPools, AlignDown, PageCount, Sub, Leaf;
    var n := |calls| - 1;
    if k == n + 1 {
      assert calls[..k] == calls;
    } else {
      assert calls[..n][..k] == calls[..k];
      FoldStaysFull(pages, calls[..n], k, maxL2, maxL3);
      var c := calls[n];
      var before := Fold(pages, calls[..n]);
      FillNone(before, c.Attr(), AlignDown(c.va), Sub(c.pa, c.va % 0x1000));
      StaysFull(before, c.Attr(), AlignDown(c.va), 0, PageCount(c.va, c.size), Sub(c.pa, c.va % 0x1000), maxL2, maxL3);
    }
  }
}
