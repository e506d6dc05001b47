/** The first-fit heap seen as a sequence of blocks that tile one arena.
    Allocation carves a block out of the first free one that fits; release merges
    the freed block with its free neighbours. The in-place heap (module Heap) is
    proved against the functions below. */
module HeapSpec {
  import opened Arith
  import opened Bits

  const WORD: nat := 0x1_0000_0000_0000_0000  // size_t arithmetic is modulo 2^64
  const HEADER: nat := 32                     // sizeof(heap_block_t) on a 64-bit target
  const GRAIN: nat := 16                      // HEAP_BLOCK_ALIGN
  const MIN_BLOCK: nat := 48                  // HEAP_MIN_SIZE

  datatype Block = Block(addr: nat, size: nat, used: bool) {
    function End(): nat { addr + size }
  }

  lemma GrainIsPower()
    ensures PowerOfTwo(GRAIN)
  {
    assert PowerOfTwo(4) by { assert PowerOfTwo(2); }
    assert PowerOfTwo(8);
  }

  lemma GrainMask(t: nat)
    ensures AndNot(t, GRAIN - 1) == t - t % 16 && AndNot(t, GRAIN - 1) % 16 == 0
  {
    hide AndNot;
    GrainIsPower();
    MaskRounds(t, GRAIN);
    RoundDownIs(t, 16, t / 16);
  }

  /** t & ~(HEAP_BLOCK_ALIGN - 1) */
  function Grained(t: nat): (r: nat)
    ensures r % 16 == 0 && r <= t < r + 16
  {
    GrainMask(t);
    AndNot(t, GRAIN - 1)
  }

  /** The block size heap_alloc asks for: header added, rounded up, at least the minimum. */
  function Need(size: nat): (need: nat)
    ensures need >= MIN_BLOCK && need % 16 == 0
  {
    var rounded := Grained((size + HEADER + GRAIN - 1) % WORD);
    if rounded < MIN_BLOCK then MIN_BLOCK else rounded
  }

  /** The rounded block holds the request exactly when the 64-bit addition does not wrap. */
  lemma NeedHoldsRequest(size: nat)
    requires 0 < size < WORD
    ensures Need(size) >= size + HEADER <==> size + HEADER + GRAIN - 1 < WORD
  {
    hide Grained;
    var t := size + HEADER + GRAIN - 1;
    if t >= WORD {
      assert t % WORD == t - WORD;
    }
  }

  /** Short of a wrap it is the least multiple of 16 that is at least 48 and leaves the request 32 bytes for the header;
      a request whose rounding wraps gets the least block there is. */
  lemma NeedLeast(size: nat)
    requires 0 < size < 0x1_0000_0000_0000_0000
    ensures size + 47 < 0x1_0000_0000_0000_0000 ==>
              && Need(size) % 16 == 0 && Need(size) >= 48 && Need(size) >= size + 32
              && forall n: nat :: n % 16 == 0 && n >= 48 && n >= size + 32 ==> Need(size) <= n
    ensures size + 47 >= 0x1_0000_0000_0000_0000 ==> Need(size) == 48
  {
    hide Grained;
    var t := size + HEADER + GRAIN - 1;
    assert t % WORD == if t < WORD then t else t - WORD;
  }

  // ----- invariants

  predicate WellSized(b: Block) {
    b.size >= MIN_BLOCK && b.size % 16 == 0 && b.addr % 16 == 0
  }

  /** The blocks cover [lo, hi) exactly, in address order, each of a legal size. */
  ghost predicate Tiles(bs: seq<Block>, lo: nat, hi: nat) {
    if bs == [] then lo == hi
    else bs[0].addr == lo && WellSized(bs[0]) && Tiles(bs[1..], bs[0].End(), hi)
  }

  /** No two free blocks touch. */
  ghost predicate Coalesced(bs: seq<Block>) {
    forall i, j :: 0 <= i && j == i + 1 && j < |bs| ==> bs[i].used || bs[j].used
  }

  ghost predicate Inv(bs: seq<Block>, lo: nat, hi: nat) {
    lo < hi && Tiles(bs, lo, hi) && Coalesced(bs)
  }

  /** The blocks in use. */
  ghost function Live(bs: seq<Block>): multiset<Block> {
    if bs == [] then multiset{} else InUse(bs[0]) + Live(bs[1..])
  }

  ghost function InUse(b: Block): multiset<Block> { if b.used then multiset{b} else multiset{} }

  // ----- replacing a stretch of blocks by another

  function Splice(bs: seq<Block>, l: nat, h: nat, mid: seq<Block>): seq<Block>
    requires l <= h <= |bs|
  {
    bs[..l] + mid + bs[h..]
  }

  lemma {:induction false} TilesConcat(a: seq<Block>, b: seq<Block>, lo: nat, mid: nat, hi: nat)
    requires Tiles(a, lo, mid) && Tiles(b, mid, hi)
    ensures Tiles(a + b, lo, hi)
  {
    if a == [] {
      assert a + b == b;
    } else {
      TilesConcat(a[1..], b, a[0].End(), mid, hi);
      assert (a + b)[1..] == a[1..] + b;
    }
  }

  /** Address of the k-th block; the arena's end for k = |bs|. */
  ghost function Start(bs: seq<Block>, k: nat, hi: nat): nat
    requires k <= |bs|
  {
    if k < |bs| then bs[k].addr else hi
  }

  lemma {:induction false} TilesSplit(bs: seq<Block>, k: nat, lo: nat, hi: nat)
    requires Tiles(bs, lo, hi) && k <= |bs|
    ensures Tiles(bs[..k], lo, Start(bs, k, hi)) && Tiles(bs[k..], Start(bs, k, hi), hi)
    ensures k < |bs| ==> WellSized(bs[k]) && bs[k].End() == Start(bs, k + 1, hi)
  {
    if k == 0 {
      assert bs[k..] == bs && bs[..k] == [];
    } else {
      TilesSplit(bs[1..], k - 1, bs[0].End(), hi);
      assert bs[..k][1..] == bs[1..][..k - 1] && bs[1..][k - 1..] == bs[k..];
    }
  }

  lemma BlockAt(bs: seq<Block>, k: nat, lo: nat, hi: nat)
    requires Tiles(bs, lo, hi) && k < |bs|
    ensures WellSized(bs[k]) && bs[k].End() == Start(bs, k + 1, hi)
  {
    TilesSplit(bs, k, lo, hi);
  }

  /** Later blocks start where or after earlier ones end. */
  lemma {:induction false} Ordered(bs: seq<Block>, i: nat, j: nat, lo: nat, hi: nat)
    requires Tiles(bs, lo, hi) && i < j <= |bs|
    ensures lo <= bs[i].addr && bs[i].End() <= Start(bs, j, hi) <= hi
    decreases j
  {
    TilesSplit(bs, i, lo, hi);
    TilesSplit(bs, j, lo, hi);
    TilesBounds(bs[..i], lo, bs[i].addr);
    TilesBounds(bs[j..], Start(bs, j, hi), hi);
    if i + 1 < j {
      TilesSplit(bs, j - 1, lo, hi);
      Ordered(bs, i, j - 1, lo, hi);
    }
  }

  lemma {:induction false} TilesBounds(bs: seq<Block>, lo: nat, hi: nat)
    requires Tiles(bs, lo, hi)
    ensures lo <= hi && (lo == hi <==> bs == [])
  {
    if bs != [] { TilesBounds(bs[1..], bs[0].End(), hi); }
  }

  lemma SpliceTiles(bs: seq<Block>, l: nat, h: nat, mid: seq<Block>, lo: nat, hi: nat)
    requires Tiles(bs, lo, hi) && l <= h <= |bs|
    requires Tiles(mid, Start(bs, l, hi), Start(bs, h, hi))
    ensures Tiles(Splice(bs, l, h, mid), lo, hi)
  {
    TilesSplit(bs, l, lo, hi);
    TilesSplit(bs, h, lo, hi);
    TilesConcat(bs[..l], mid, lo, Start(bs, l, hi), Start(bs, h, hi));
    TilesConcat(bs[..l] + mid, bs[h..], lo, Start(bs, h, hi), hi);
  }

  lemma SpliceCoalesced(bs: seq<Block>, l: nat, h: nat, mid: seq<Block>)
    requires Coalesced(bs) && Coalesced(mid) && l <= h <= |bs| && mid != []
    requires mid[0].used || l == 0 || bs[l - 1].used
    requires mid[|mid| - 1].used || h == |bs| || bs[h].used
    ensures Coalesced(Splice(bs, l, h, mid))
  {
    var cs := Splice(bs, l, h, mid);
    forall i, j | 0 <= i && j == i + 1 && j < |cs| ensures cs[i].used || cs[j].used {
      if j < l {
        assert bs[i].used || bs[j].used;
      } else if i >= l + |mid| {
        var d := h - l - |mid|;
        assert cs[i] == bs[i + d] && cs[j] == bs[j + d];
      } else if i >= l && j < l + |mid| {
        assert mid[i - l].used || mid[j - l].used;
      }
    }
  }

  lemma {:induction false} LiveConcat(a: seq<Block>, b: seq<Block>)
    ensures Live(a + b) == Live(a) + Live(b)
  {
    if a == [] {
      assert a + b == b;
    } else {
      hide InUse;
      assert (a + b)[1..] == a[1..] + b && (a + b)[0] == a[0];
      calc {
        Live(a + b);
        InUse(a[0]) + Live(a[1..] + b);
        { LiveConcat(a[1..], b); }
        InUse(a[0]) + (Live(a[1..]) + Live(b));
        InUse(a[0]) + Live(a[1..]) + Live(b);
        Live(a) + Live(b);
      }
    }
  }

  lemma LiveConcat3(a: seq<Block>, b: seq<Block>, c: seq<Block>)
    ensures Live(a + b + c) == Live(a) + Live(b) + Live(c)
  {
    hide Live;
    LiveConcat(a + b, c);
    LiveConcat(a, b);
  }

  lemma SpliceLive(bs: seq<Block>, l: nat, h: nat, mid: seq<Block>)
    requires l <= h <= |bs|
    ensures Live(Splice(bs, l, h, mid)) == Live(bs[..l]) + Live(mid) + Live(bs[h..])
    ensures Live(bs) == Live(bs[..l]) + Live(bs[l..h]) + Live(bs[h..])
  {
    LiveConcat3(bs[..l], mid, bs[h..]);
    LiveSlices(bs, l, h);
  }

  lemma LiveSlices(bs: seq<Block>, l: nat, h: nat)
    requires l <= h <= |bs|
    ensures Live(bs) == Live(bs[..l]) + Live(bs[l..h]) + Live(bs[h..])
  {
    hide Live;
    LiveConcat(bs[..h], bs[h..]);
    LiveConcat(bs[..l], bs[l..h]);
    assert bs[..h] == bs[..l] + bs[l..h] && bs == bs[..h] + bs[h..];
  }

  lemma LiveOne(b: Block)
    ensures Live([b]) == InUse(b)
  {
    assert [b][1..] == [];
  }

  // ----- first fit and carving

  predicate Fits(b: Block, need: nat) { !b.used && b.size >= need }

  /** Index of the lowest-addressed free block that fits, or |bs|. */
  function FirstFit(bs: seq<Block>, need: nat): (r: nat)
    ensures r <= |bs|
    ensures forall i :: 0 <= i < r ==> !Fits(bs[i], need)
    ensures r < |bs| ==> Fits(bs[r], need)
  {
    if bs == [] || Fits(bs[0], need) then 0
    else
      var r := FirstFit(bs[1..], need);
      assert forall i :: 0 < i < |bs| ==> bs[i] == bs[1..][i - 1];
      r + 1
  }

  /** What a fitting block becomes: split when the rest can hold a block of its own. */
  function Cut(b: Block, need: nat): seq<Block> {
    if b.size >= need + MIN_BLOCK then
      [Block(b.addr, need, true), Block(b.addr + need, b.size - need, false)]
    else
      [b.(used := true)]
  }

  function Carve(bs: seq<Block>, i: nat, need: nat): seq<Block>
    requires i < |bs|
  {
    Splice(bs, i, i + 1, Cut(bs[i], need))
  }

  // ----- release with coalescing

  predicate RightFree(bs: seq<Block>, i: nat) { i + 1 < |bs| && !bs[i + 1].used }
  predicate LeftFree(bs: seq<Block>, i: nat) { 0 < i <= |bs| && !bs[i - 1].used }

  /** The freed block together with its free neighbours. */
  function Merged(bs: seq<Block>, i: nat): Block
    requires i < |bs|
  {
    var l := if LeftFree(bs, i) then bs[i - 1].size else 0;
    var r := if RightFree(bs, i) then bs[i + 1].size else 0;
    Block(if LeftFree(bs, i) then bs[i - 1].addr else bs[i].addr, l + bs[i].size + r, false)
  }

  function Release(bs: seq<Block>, i: nat): seq<Block>
    requires i < |bs|
  {
    Splice(bs, if LeftFree(bs, i) then i - 1 else i, if RightFree(bs, i) then i + 2 else i + 1, [Merged(bs, i)])
  }

  /** Carving keeps the arena tiled and coalesced; the new block sits at the fitting
      block's address and is too small to have been split further. */
  lemma CarveKeeps(bs: seq<Block>, i: nat, need: nat, lo: nat, hi: nat)
    requires Inv(bs, lo, hi) && i < |bs| && Fits(bs[i], need)
    requires need >= MIN_BLOCK && need % 16 == 0
    ensures Inv(Carve(bs, i, need), lo, hi)
    ensures var b := Carve(bs, i, need)[i];
            b.used && b.addr == bs[i].addr && need <= b.size < need + MIN_BLOCK
  {
    var mid := Cut(bs[i], need);
    TilesSplit(bs, i, lo, hi);
    CutTiles(bs[i], need);
    SpliceTiles(bs, i, i + 1, mid, lo, hi);
    SpliceCoalesced(bs, i, i + 1, mid);
    assert Carve(bs, i, need)[i] == mid[0];
  }

  /** Carving adds exactly the new block to the live ones. */
  lemma CarveLive(bs: seq<Block>, i: nat, need: nat)
    requires i < |bs| && Fits(bs[i], need)
    ensures Live(Carve(bs, i, need)) == Live(bs) + multiset{Carve(bs, i, need)[i]}
  {
    hide Live;
    var mid := Cut(bs[i], need);
    SpliceLive(bs, i, i + 1, mid);
    CutLive(bs[i], need);
    assert bs[i..i + 1] == [bs[i]];
    assert Carve(bs, i, need)[i] == mid[0];
  }

  lemma CutTiles(b: Block, need: nat)
    requires Fits(b, need) && WellSized(b) && need >= MIN_BLOCK && need % 16 == 0
    ensures Tiles(Cut(b, need), b.addr, b.End())
  {
    var mid := Cut(b, need);
    if |mid| == 2 {
      TilesConcat([mid[0]], [mid[1]], b.addr, b.addr + need, b.End());
      assert mid == [mid[0]] + [mid[1]];
    }
  }

  lemma CutLive(b: Block, need: nat)
    requires !b.used
    ensures Live(Cut(b, need)) == multiset{Cut(b, need)[0]} && Live([b]) == multiset{}
  {
    var mid := Cut(b, need);
    LiveOne(b);
    LiveOne(mid[0]);
    if |mid| == 2 {
      LiveOne(mid[1]);
      LiveConcat([mid[0]], [mid[1]]);
      assert mid == [mid[0]] + [mid[1]];
    }
  }

  /** Releasing keeps the arena tiled and coalesced. */
  lemma ReleaseKeeps(bs: seq<Block>, i: nat, lo: nat, hi: nat)
    requires Inv(bs, lo, hi) && i < |bs| && bs[i].used
    ensures Inv(Release(bs, i), lo, hi)
  {
    var l := if LeftFree(bs, i) then i - 1 else i;
    var h := if RightFree(bs, i) then i + 2 else i + 1;
    MergedTiles(bs, i, l, h, lo, hi);
    SpliceTiles(bs, l, h, [Merged(bs, i)], lo, hi);
    MergedGap(bs, i, l, h);
    SpliceCoalesced(bs, l, h, [Merged(bs, i)]);
  }

  /** Releasing takes exactly that block out of use. */
  lemma ReleaseLive(bs: seq<Block>, i: nat)
    requires i < |bs| && bs[i].used
    ensures Live(Release(bs, i)) == Live(bs) - multiset{bs[i]}
  {
    hide Live, Merged;
    var l := if LeftFree(bs, i) then i - 1 else i;
    var h := if RightFree(bs, i) then i + 2 else i + 1;
    SpliceLive(bs, l, h, [Merged(bs, i)]);
    MergedLive(bs, i, l, h);
  }

  /** Two touching blocks as one. */
  ghost function Join(a: Block, b: Block): (m: Block)
    ensures WellSized(a) && WellSized(b) ==> WellSized(m)
  {
    Block(a.addr, a.size + b.size, false)
  }

  lemma TilesOne(b: Block)
    requires WellSized(b)
    ensures Tiles([b], b.addr, b.End())
  {
    assert [b][1..] == [];
  }

  lemma MergedTiles(bs: seq<Block>, i: nat, l: nat, h: nat, lo: nat, hi: nat)
    requires Tiles(bs, lo, hi) && i < |bs|
    requires l == (if LeftFree(bs, i) then i - 1 else i) && h == (if RightFree(bs, i) then i + 2 else i + 1)
    ensures Tiles([Merged(bs, i)], Start(bs, l, hi), Start(bs, h, hi))
  {
    BlockAt(bs, i, lo, hi);
    var m := bs[i];
    if i + 1 < h {
      BlockAt(bs, i + 1, lo, hi);
      m := Join(m, bs[i + 1]);
    }
    if l < i {
      BlockAt(bs, l, lo, hi);
      m := Join(bs[l], m);
    }
    TilesOne(m.(used := false));
  }

  lemma MergedGap(bs: seq<Block>, i: nat, l: nat, h: nat)
    requires Coalesced(bs) && i < |bs| && bs[i].used
    requires l == (if LeftFree(bs, i) then i - 1 else i) && h == (if RightFree(bs, i) then i + 2 else i + 1)
    ensures (l == 0 || bs[l - 1].used) && (h == |bs| || bs[h].used)
  {
  }

  lemma MergedLive(bs: seq<Block>, i: nat, l: nat, h: nat)
    requires i < |bs| && bs[i].used
    requires l == (if LeftFree(bs, i) then i - 1 else i) && h == (if RightFree(bs, i) then i + 2 else i + 1)
    ensures Live(bs[l..h]) == multiset{bs[i]} && Live([Merged(bs, i)]) == multiset{}
  {
    hide Live;
    LiveFree(bs, l, i);
    LiveFree(bs, i + 1, h);
    LiveOne(bs[i]);
    LiveOne(Merged(bs, i));
    assert bs[l..h] == bs[l..i] + [bs[i]] + bs[i + 1..h];
    LiveConcat3(bs[l..i], [bs[i]], bs[i + 1..h]);
  }

  lemma LiveFree(bs: seq<Block>, l: nat, h: nat)
    requires l <= h <= l + 1 && h <= |bs| && (l < h ==> !bs[l].used)
    ensures Live(bs[l..h]) == multiset{}
  {
    if l < h { LiveOne(bs[l]); assert bs[l..h] == [bs[l]]; }
  }

  /** Releasing the block that was just carved restores the heap exactly. */
  lemma ReleaseUndoesCarve(bs: seq<Block>, i: nat, need: nat)
    requires Coalesced(bs) && i < |bs| && Fits(bs[i], need)
    ensures Release(Carve(bs, i, need), i) == bs
  {
    var cs := Carve(bs, i, need);
    var d := |cs| - |bs|;
    assert cs[..i] == bs[..i] && cs[i + 1 + d..] == bs[i + 1..];
    if d == 1 { assert cs[i + 1] == Cut(bs[i], need)[1]; }
    assert i > 0 ==> cs[i - 1] == bs[i - 1] && bs[i - 1].used;
    assert d == 0 && i + 1 < |bs| ==> cs[i + 1] == bs[i + 1] && bs[i + 1].used;
    assert Merged(cs, i) == bs[i];
    assert bs == bs[..i] + [bs[i]] + bs[i + 1..];
  }

  /** Blocks at different places have disjoint extents inside the arena, so the payloads
      [addr + HEADER, End) of live blocks never overlap. */
  lemma ExtentsDisjoint(bs: seq<Block>, lo: nat, hi: nat, i: nat, j: nat)
    requires Tiles(bs, lo, hi) && i < |bs| && j < |bs| && i != j
    ensures bs[i].End() <= bs[j].addr || bs[j].End() <= bs[i].addr
    ensures lo <= bs[i].addr && bs[i].addr + HEADER < bs[i].End() <= hi
  {
    Ordered(bs, i, |bs|, lo, hi);
    TilesSplit(bs, i, lo, hi);
    if i < j { Ordered(bs, i, j, lo, hi); } else { Ordered(bs, j, i, lo, hi); }
  }

  /** Live lists exactly the used blocks. */
  lemma {:induction false} LiveMember(bs: seq<Block>, b: Block)
    ensures b in Live(bs) <==> b in bs && b.used
  {
    if bs != [] { LiveMember(bs[1..], b); assert b in bs <==> b == bs[0] || b in bs[1..]; }
  }

  // ----- whole runs

  datatype Op = Alloc(size: nat) | Free(ptr: nat)

  /** Index of the live block whose payload starts at ptr, or |bs|. */
  function Find(bs: seq<Block>, ptr: nat): (r: nat)
    ensures r <= |bs|
    ensures r < |bs| ==> bs[r].used && bs[r].addr + HEADER == ptr
    ensures r == |bs| ==> forall i :: 0 <= i < |bs| ==> !(bs[i].used && bs[i].addr + HEADER == ptr)
  {
    if bs == [] || (bs[0].used && bs[0].addr + HEADER == ptr) then 0
    else
      var r := Find(bs[1..], ptr);
      assert forall i :: 0 < i < |bs| ==> bs[i] == bs[1..][i - 1];
      r + 1
  }

  function AllocStep(bs: seq<Block>, size: nat): seq<Block> {
    var i := FirstFit(bs, Need(size));
    if size == 0 || i == |bs| then bs else Carve(bs, i, Need(size))
  }

  function Step(bs: seq<Block>, op: Op): seq<Block> {
    match op
    case Alloc(size) => AllocStep(bs, size)
    case Free(ptr) => var i := Find(bs, ptr); if i == |bs| then bs else Release(bs, i)
  }

  /** Every free is of NULL or of a payload that is live at that moment. */
  ghost predicate Legal(bs: seq<Block>, ops: seq<Op>)
    decreases |ops|
  {
    ops == [] ||
    (match ops[0] { case Alloc(_) => true case Free(p) => p == 0 || Find(bs, p) < |bs| }
    && Legal(Step(bs, ops[0]), ops[1..]))
  }

  function Run(bs: seq<Block>, ops: seq<Op>): seq<Block>
    decreases |ops|
  {
    if ops == [] then bs else Run(Step(bs, ops[0]), ops[1..])
  }

  function Initial(lo: nat, total: nat): seq<Block> { [Block(lo, total, false)] }

  lemma StepKeeps(bs: seq<Block>, op: Op, lo: nat, hi: nat)
    requires Inv(bs, lo, hi)
    ensures Inv(Step(bs, op), lo, hi)
  {
    match op
    case Alloc(size) =>
      var i := FirstFit(bs, Need(size));
      if size != 0 && i < |bs| { CarveKeeps(bs, i, Need(size), lo, hi); }
    case Free(ptr) =>
      var i := Find(bs, ptr);
      if i < |bs| { ReleaseKeeps(bs, i, lo, hi); }
  }

  /** Tiling and coalescing hold after every run of allocations and releases. */
  lemma {:induction false} RunKeeps(bs: seq<Block>, ops: seq<Op>, lo: nat, hi: nat)
    requires Inv(bs, lo, hi) && Legal(bs, ops)
    ensures Inv(Run(bs, ops), lo, hi)
    decreases |ops|
  {
    if ops != [] {
      StepKeeps(bs, ops[0], lo, hi);
      RunKeeps(Step(bs, ops[0]), ops[1..], lo, hi);
    }
  }

  /** A heap with nothing in use is one arena-sized free block. */
  lemma NothingLive(bs: seq<Block>, lo: nat, hi: nat)
    requires Inv(bs, lo, hi) && Live(bs) == multiset{}
    ensures bs == Initial(lo, hi - lo)
  {
    assert |bs| <= 1 || bs[0].used || bs[1].used;
    forall b | b in bs ensures !b.used { LiveMember(bs, b); }
    TilesSplit(bs, 0, lo, hi);
  }

  function Frees(order: seq<Block>): seq<Op> {
    if order == [] then [] else [Free(order[0].addr + HEADER)] + Frees(order[1..])
  }

  /** Freeing every live block once, in any order whatever, restores the single initial block. */
  lemma {:induction false} FreeAllInAnyOrder(bs: seq<Block>, order: seq<Block>, lo: nat, hi: nat)
    requires Inv(bs, lo, hi) && multiset(order) == Live(bs)
    ensures Legal(bs, Frees(order)) && Run(bs, Frees(order)) == Initial(lo, hi - lo)
    decreases |order|
  {
    if order == [] {
      NothingLive(bs, lo, hi);
    } else {
      var i := FreeFirst(bs, order, lo, hi);
      FreeAllInAnyOrder(Release(bs, i), order[1..], lo, hi);
      assert Frees(order)[1..] == Frees(order[1..]);
    }
  }

  lemma InvTiles(bs: seq<Block>, lo: nat, hi: nat)
    requires Inv(bs, lo, hi)
    ensures Tiles(bs, lo, hi)
  {
  }

  lemma FreeFirst(bs: seq<Block>, order: seq<Block>, lo: nat, hi: nat) returns (i: nat)
    requires Inv(bs, lo, hi) && multiset(order) == Live(bs) && order != []
    ensures i == Find(bs, order[0].addr + HEADER) && i < |bs|
    ensures Inv(Release(bs, i), lo, hi) && multiset(order[1..]) == Live(Release(bs, i))
  {
    hide Live, Inv, Tiles, Find, Release;
    var b := order[0];
    assert b in multiset(order);
    assert Tiles(bs, lo, hi) by { InvTiles(bs, lo, hi); }
    LiveMember(bs, b);
    FindLive(bs, b, lo, hi);
    i := Find(bs, b.addr + HEADER);
    ReleaseKeeps(bs, i, lo, hi);
    ReleaseLive(bs, i);
    assert order == [b] + order[1..];
  }

  /** A payload address identifies its block. */
  lemma FindLive(bs: seq<Block>, b: Block, lo: nat, hi: nat)
    requires Tiles(bs, lo, hi) && b in bs && b.used
    ensures Find(bs, b.addr + HEADER) < |bs| && bs[Find(bs, b.addr + HEADER)] == b
  {
    var r := Find(bs, b.addr + HEADER);
    var i :| 0 <= i < |bs| && bs[i] == b;
    if r != i {
      assert r < |bs|;
      ExtentsDisjoint(bs, lo, hi, i, r);
      ExtentsDisjoint(bs, lo, hi, r, i);
    }
  }

  // ----- what a request gets

  /** A free block with room for a request and 32 bytes of header; any free block, if the size wraps when rounded. */
  predicate Room(b: Block, size: nat) {
    !b.used && (size + 47 < 0x1_0000_0000_0000_0000 ==> b.size >= size + 32)
  }

  /** Block i is the lowest one with room. */
  ghost predicate FirstRoom(bs: seq<Block>, size: nat, i: nat) {
    i < |bs| && Room(bs[i], size) && forall j :: 0 <= j < i ==> !Room(bs[j], size)
  }

  lemma RoomExactly(bs: seq<Block>, size: nat, lo: nat, hi: nat)
    requires Tiles(bs, lo, hi) && 0 < size < WORD
    ensures forall i :: 0 <= i < |bs| ==> (Fits(bs[i], Need(size)) <==> Room(bs[i], size))
  {
    hide Need;
    NeedLeast(size);
    forall i | 0 <= i < |bs| ensures Fits(bs[i], Need(size)) <==> Room(bs[i], size) {
      TilesSplit(bs, i, lo, hi);
    }
  }

  /** Nothing happens when no block has room. Otherwise the lowest one with room is used, from its start: the request and
      its header fit with at most 47 bytes to spare, any rest is one free block, and no other block changes. */
  lemma ServedExactly(bs: seq<Block>, size: nat, lo: nat, hi: nat)
    requires Inv(bs, lo, hi) && 0 < size < WORD
    ensures var r := FirstFit(bs, Need(size));
            if forall b :: b in bs ==> !Room(b, size) then r == |bs| && AllocStep(bs, size) == bs
            else r < |bs| && Given(bs, AllocStep(bs, size), size, bs[r].addr + 32)
  {
    hide Need, Tiles, Carve, Room, Serves, FirstRoom, FirstFit, Coalesced;
    FirstRoomIs(bs, size, lo, hi);
    var r := FirstFit(bs, Need(size));
    if r < |bs| {
      TilesSplit(bs, r, lo, hi);
      CarveServes(bs, r, size);
      assert Serves(bs, AllocStep(bs, size), r, size);
    }
  }

  lemma FirstRoomIs(bs: seq<Block>, size: nat, lo: nat, hi: nat)
    requires Tiles(bs, lo, hi) && 0 < size < WORD
    ensures var r := FirstFit(bs, Need(size));
            if r == |bs| then forall b :: b in bs ==> !Room(b, size) else FirstRoom(bs, size, r) && bs[r] in bs && Room(bs[r], size)
  {
    hide Need, Tiles, Room, Fits;
    RoomExactly(bs, size, lo, hi);
  }

  /** The request was served from the lowest block with room, and its payload starts at ptr. */
  ghost predicate Given(bs: seq<Block>, after: seq<Block>, size: nat, ptr: nat) {
    exists i: nat :: FirstRoom(bs, size, i) && Serves(bs, after, i, size) && ptr == bs[i].addr + 32
  }

  /** Block i of bs was given to a request. */
  ghost predicate Serves(bs: seq<Block>, after: seq<Block>, i: nat, size: nat) {
    && i < |bs| && i < |after| && after[i].size <= bs[i].size && after[..i] == bs[..i]
    && after[i].used && after[i].addr == bs[i].addr
    && (size + 47 < WORD ==> size + 32 <= after[i].size <= size + 79)
    && if after[i].size == bs[i].size then after[i + 1..] == bs[i + 1..]
       else |after| == |bs| + 1 && after[i + 2..] == bs[i + 1..]
            && after[i + 1] == Block(after[i].End(), bs[i].size - after[i].size, false)
  }

  lemma CarveServes(bs: seq<Block>, i: nat, size: nat)
    requires i < |bs| && Fits(bs[i], Need(size)) && 0 < size < WORD && WellSized(bs[i])
    ensures Serves(bs, Carve(bs, i, Need(size)), i, size)
  {
    hide Need;
    NeedLeast(size);
    var n := size + 47 - (size + 47) % 16;
    assert n % 16 == 0 && n >= 48 && n >= size + 32;
    assert bs[i].size < Need(size) + MIN_BLOCK ==> bs[i].size <= Need(size) + 32;
    var mid, post := Cut(bs[i], Need(size)), bs[i + 1..];
    var after := bs[..i] + mid + post;
    assert after == Carve(bs, i, Need(size)) && after[i] == mid[0] && after[..i] == bs[..i];
    if |mid| == 1 {
      assert after[i + 1..] == post;
    } else {
      assert after[i + 1] == mid[1] && after[i + 2..] == post;
    }
  }

  // ----- aligned allocation

  const PTR_SIZE: nat := 8  // sizeof(void *)

  function AtLeastGrain(alignment: nat): (a: nat) { if alignment < GRAIN then GRAIN else alignment }

  /** Rounding a power-of-two alignment up to the grain leaves a power of two. */
  lemma GrainOrMore(alignment: nat)
    requires PowerOfTwo(alignment)
    ensures PowerOfTwo(AtLeastGrain(alignment))
  {
    GrainIsPower();
  }

  function AlignedTotal(size: nat, alignment: nat): nat { size + AtLeastGrain(alignment) + PTR_SIZE }

  function AlignedPtr(raw: nat, alignment: nat): nat {
    AndNot(raw + PTR_SIZE + AtLeastGrain(alignment) - 1, AtLeastGrain(alignment) - 1)
  }

  /** The pointer, the word below it and its extent stay within what was asked for, whatever the alignment; a power
      of two aligns it. */
  lemma AlignedInside(raw: nat, size: nat, alignment: nat)
    ensures var p := AlignedPtr(raw, alignment);
            raw + PTR_SIZE <= p && p + size <= raw + AlignedTotal(size, alignment)
    ensures PowerOfTwo(AtLeastGrain(alignment)) ==> AlignedPtr(raw, alignment) % AtLeastGrain(alignment) == 0
  {
    var a := AtLeastGrain(alignment);
    AndNotBounds(raw + PTR_SIZE + a - 1, a - 1);
    if PowerOfTwo(a) { MaskRounds(raw + PTR_SIZE + a - 1, a); }
  }

  /** The pointer handed out for an aligned request whose plain payload starts at raw: 8 bytes for raw itself below it, all
      that was asked for behind it, and for a power of two the first multiple of it there. */
  ghost predicate Placed(raw: nat, size: nat, alignment: nat, ptr: nat) {
    var a := if alignment < 16 then 16 else alignment;
    && raw + 8 <= ptr && ptr + size <= raw + (size + a + 8)
    && (PowerOfTwo(a) ==> ptr % a == 0 && forall q: nat :: q % a == 0 && q >= raw + 8 ==> ptr <= q)
  }

  lemma AlignedPlaced(raw: nat, size: nat, alignment: nat)
    ensures Placed(raw, size, alignment, AlignedPtr(raw, alignment))
  {
    var a := AtLeastGrain(alignment);
    var p := AlignedPtr(raw, alignment);
    AlignedInside(raw, size, alignment);
    if PowerOfTwo(a) {
      hide AndNot, PowerOfTwo;
      MaskRounds(raw + PTR_SIZE + a - 1, a);
      forall q: nat | q % a == 0 && q >= raw + 8 ensures p <= q { NextMultiple(p, q, raw + 8, a); }
    }
  }

  /** Two multiples of a differ by at least a. */
  lemma NextMultiple(p: nat, q: nat, lo: nat, a: nat)
    requires a > 0 && p % a == 0 && q % a == 0 && p < lo + a && lo <= q
    ensures p <= q
  {
    if q < p {
      var k, n := p / a, q / a;
      assert p == a * k && q == a * n;
      Distribute(a, k, n);
      if k > n { MulAtLeast(a, k - n); } else { MulMonotone(a, k, n); }
    }
  }

  lemma MulMonotone(a: nat, k: nat, n: nat)
    requires k <= n
    ensures a * k <= a * n
  {
    Distribute(a, n, k);
  }

  lemma AlignedReady(bs: seq<Block>, want: nat, lo: nat, hi: nat)
    requires Inv(bs, lo, hi) && 0 < want && want + MIN_BLOCK < WORD
    ensures var i := FirstFit(bs, Need(want));
            i < |bs| ==>
              var after := Carve(bs, i, Need(want));
              i < |after| &&
              var b := after[i];
              b.used && b.addr == bs[i].addr && want + HEADER <= b.size
  {
    var i := FirstFit(bs, Need(want));
    if i < |bs| {
      CarveKeeps(bs, i, Need(want), lo, hi);
      NeedHoldsRequest(want);
    }
  }
}
