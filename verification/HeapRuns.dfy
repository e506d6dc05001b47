/** Runs that mix plain and aligned allocation. */
module HeapRuns {
  import opened HeapSpec

  /** An aligned pointer in use: the block it lies in and the size asked for. */
  datatype Use = Use(block: Block, size: nat)

  datatype State = State(blocks: seq<Block>, aligned: map<nat, Use>)

  datatype Call = CAlloc(size: nat) | CFree(ptr: nat) | CAllocAligned(size: nat, alignment: nat) | CFreeAligned(ptr: nat)

  function AllocAlignedStep(s: State, size: nat, alignment: nat): State {
    var total := AlignedTotal(size, alignment);
    var i := FirstFit(s.blocks, Need(total));
    if i == |s.blocks| then s
    else
      var after := Carve(s.blocks, i, Need(total));
      State(after, s.aligned[AlignedPtr(after[i].addr + HEADER, alignment) := Use(after[i], size)])
  }

  function Perform(s: State, call: Call): State {
    match call
    case CAlloc(size) => s.(blocks := AllocStep(s.blocks, size))
    case CFree(ptr) => s.(blocks := Step(s.blocks, Op.Free(ptr)))
    case CAllocAligned(size, alignment) => AllocAlignedStep(s, size, alignment)
    case CFreeAligned(ptr) =>
      if ptr !in s.aligned then s
      else State(Step(s.blocks, Op.Free(s.aligned[ptr].block.addr + HEADER)), s.aligned - {ptr})
  }

  /** No aligned pointer in use came from a block at that payload. */
  ghost predicate Unaligned(s: State, ptr: nat) {
    forall p :: p in s.aligned ==> s.aligned[p].block.addr + HEADER != ptr
  }

  /** What a correct caller does: free what it has, with the function that belongs to it; ask for sizes that do not wrap. */
  ghost predicate LegalCall(s: State, call: Call) {
    match call
    case CAlloc(_) => true
    case CFree(ptr) => ptr == 0 || (Find(s.blocks, ptr) < |s.blocks| && Unaligned(s, ptr))
    case CAllocAligned(size, alignment) => size + alignment + GRAIN + PTR_SIZE + MIN_BLOCK < WORD
    case CFreeAligned(ptr) => ptr == 0 || ptr in s.aligned
  }

  ghost predicate LegalCalls(s: State, calls: seq<Call>)
    decreases |calls|
  {
    calls == [] || (LegalCall(s, calls[0]) && LegalCalls(Perform(s, calls[0]), calls[1..]))
  }

  function RunCalls(s: State, calls: seq<Call>): State
    decreases |calls|
  {
    if calls == [] then s else RunCalls(Perform(s, calls[0]), calls[1..])
  }

  /** An aligned pointer lies, with the word below it and its whole extent, in the payload of a live block. */
  ghost predicate Inside(bs: seq<Block>, p: nat, u: Use) {
    u.block in Live(bs) && u.block.addr + HEADER + PTR_SIZE <= p && p + u.size <= u.block.End()
  }

  ghost predicate RunInv(s: State, lo: nat, hi: nat) {
    && Inv(s.blocks, lo, hi)
    && (forall p :: p in s.aligned ==> Inside(s.blocks, p, s.aligned[p]))
    && (forall p, q :: p in s.aligned && q in s.aligned && p != q ==> s.aligned[p].block.addr != s.aligned[q].block.addr)
  }

  /** Two live blocks at one address are one block. */
  lemma OneBlock(bs: seq<Block>, a: Block, b: Block, lo: nat, hi: nat)
    requires Tiles(bs, lo, hi) && a in bs && b in bs && a.addr == b.addr
    ensures a == b
  {
    var i :| 0 <= i < |bs| && bs[i] == a;
    var j :| 0 <= j < |bs| && bs[j] == b;
    if i != j {
      ExtentsDisjoint(bs, lo, hi, i, j);
      ExtentsDisjoint(bs, lo, hi, j, i);
    }
  }

  /** Allocation leaves every live block live, and its own block is at an address none of them has. */
  lemma CarveFresh(bs: seq<Block>, i: nat, need: nat, u: Block, lo: nat, hi: nat)
    requires Tiles(bs, lo, hi) && i < |bs| && Fits(bs[i], need) && u in Live(bs)
    ensures u in Live(Carve(bs, i, need)) && u.addr != bs[i].addr
  {
    CarveLive(bs, i, need);
    LiveMember(bs, u);
    if u.addr == bs[i].addr { OneBlock(bs, u, bs[i], lo, hi); }
  }

  /** Release leaves every live block but the freed one live. */
  lemma ReleaseOthers(bs: seq<Block>, i: nat, u: Block)
    requires i < |bs| && bs[i].used && u in Live(bs) && u.addr != bs[i].addr
    ensures u in Live(Release(bs, i))
  {
    ReleaseLive(bs, i);
  }

  lemma InsideStays(bs: seq<Block>, i: nat, need: nat, p: nat, u: Use, lo: nat, hi: nat)
    requires Tiles(bs, lo, hi) && i < |bs| && Fits(bs[i], need) && Inside(bs, p, u)
    ensures Inside(Carve(bs, i, need), p, u) && u.block.addr != bs[i].addr
  {
    hide Tiles, Carve, Live;
    CarveFresh(bs, i, need, u.block, lo, hi);
  }

  lemma AllocKeeps(s: State, size: nat, lo: nat, hi: nat)
    requires RunInv(s, lo, hi)
    ensures RunInv(Perform(s, CAlloc(size)), lo, hi)
  {
    var bs, i := s.blocks, FirstFit(s.blocks, Need(size));
    StepKeeps(bs, Op.Alloc(size), lo, hi);
    if size != 0 && i < |bs| {
      forall p | p in s.aligned ensures Inside(AllocStep(bs, size), p, s.aligned[p]) {
        InsideStays(bs, i, Need(size), p, s.aligned[p], lo, hi);
      }
    }
  }

  lemma AllocAlignedKeeps(s: State, size: nat, alignment: nat, lo: nat, hi: nat)
    requires RunInv(s, lo, hi) && LegalCall(s, CAllocAligned(size, alignment))
    ensures RunInv(Perform(s, CAllocAligned(size, alignment)), lo, hi)
  {
    var i := FirstFit(s.blocks, Need(AlignedTotal(size, alignment)));
    if i < |s.blocks| {
      hide RunInv, AllocAlignedStep, Need, FirstFit;
      FreshUse(s, size, alignment, lo, hi);
    }
  }

  /** The blocks already in use keep what they hold. */
  lemma UsesStay(s: State, i: nat, need: nat, lo: nat, hi: nat)
    requires RunInv(s, lo, hi) && i < |s.blocks| && Fits(s.blocks[i], need)
    ensures forall p :: p in s.aligned ==>
              Inside(Carve(s.blocks, i, need), p, s.aligned[p]) && s.aligned[p].block.addr != s.blocks[i].addr
  {
    hide Tiles, Carve, Inside;
    forall p | p in s.aligned
      ensures Inside(Carve(s.blocks, i, need), p, s.aligned[p]) && s.aligned[p].block.addr != s.blocks[i].addr
    {
      InsideStays(s.blocks, i, need, p, s.aligned[p], lo, hi);
    }
  }

  lemma FreshUse(s: State, size: nat, alignment: nat, lo: nat, hi: nat)
    requires RunInv(s, lo, hi) && size + alignment + GRAIN + PTR_SIZE + MIN_BLOCK < WORD
    requires FirstFit(s.blocks, Need(AlignedTotal(size, alignment))) < |s.blocks|
    ensures RunInv(AllocAlignedStep(s, size, alignment), lo, hi)
  {
    assert Inv(s.blocks, lo, hi);
    hide RunInv, Inv, Inside, AlignedPtr, Need, Carve, FirstFit;
    var need := Need(AlignedTotal(size, alignment));
    var i := FirstFit(s.blocks, need);
    AlignedUse(s.blocks, size, alignment, lo, hi);
    UsesStay(s, i, need, lo, hi);
    var after := Carve(s.blocks, i, need);
    AddUse(s, after, AlignedPtr(after[i].addr + HEADER, alignment), Use(after[i], size), lo, hi);
  }

  /** The new block holds the aligned pointer. */
  lemma AlignedUse(bs: seq<Block>, size: nat, alignment: nat, lo: nat, hi: nat)
    requires Inv(bs, lo, hi) && size + alignment + GRAIN + PTR_SIZE + MIN_BLOCK < WORD
    requires FirstFit(bs, Need(AlignedTotal(size, alignment))) < |bs|
    ensures var need := Need(AlignedTotal(size, alignment));
            var i := FirstFit(bs, need);
            var after := Carve(bs, i, need);
            && Inv(after, lo, hi) && i < |after| && after[i].addr == bs[i].addr
            && Inside(after, AlignedPtr(after[i].addr + HEADER, alignment), Use(after[i], size))
  {
    hide AlignedPtr, Need, Carve, Live, Inv, FirstFit;
    var total := AlignedTotal(size, alignment);
    var i := FirstFit(bs, Need(total));
    CarveKeeps(bs, i, Need(total), lo, hi);
    AlignedReady(bs, total, lo, hi);
    var after := Carve(bs, i, Need(total));
    AlignedInside(after[i].addr + HEADER, size, alignment);
    CarveLive(bs, i, Need(total));
  }

  lemma AddUse(s: State, after: seq<Block>, p: nat, u: Use, lo: nat, hi: nat)
    requires RunInv(s, lo, hi) && Inv(after, lo, hi) && Inside(after, p, u)
    requires forall q :: q in s.aligned ==> Inside(after, q, s.aligned[q]) && s.aligned[q].block.addr != u.block.addr
    ensures RunInv(State(after, s.aligned[p := u]), lo, hi)
  {
    hide Inside, Inv;
  }

  lemma FreeKeeps(s: State, ptr: nat, left: map<nat, Use>, lo: nat, hi: nat)
    requires RunInv(s, lo, hi) && left.Keys <= s.aligned.Keys
    requires forall p :: p in left ==> left[p] == s.aligned[p] && left[p].block.addr + HEADER != ptr
    ensures RunInv(State(Step(s.blocks, Op.Free(ptr)), left), lo, hi)
  {
    var i := Find(s.blocks, ptr);
    StepKeeps(s.blocks, Op.Free(ptr), lo, hi);
    if i < |s.blocks| {
      forall p | p in left ensures Inside(Release(s.blocks, i), p, left[p]) {
        ReleaseOthers(s.blocks, i, left[p].block);
      }
    }
  }

  lemma FreeAlignedKeeps(s: State, ptr: nat, lo: nat, hi: nat)
    requires RunInv(s, lo, hi) && ptr in s.aligned
    ensures RunInv(Perform(s, CFreeAligned(ptr)), lo, hi)
  {
    hide Step, Inside, Inv;
    var left := s.aligned - {ptr};
    assert forall p :: p in left ==> p in s.aligned && p != ptr && left[p] == s.aligned[p];
    FreeKeeps(s, s.aligned[ptr].block.addr + HEADER, left, lo, hi);
  }

  lemma FreeNothing(bs: seq<Block>)
    ensures Step(bs, Op.Free(0)) == bs
  {
    assert Find(bs, 0) == |bs|;
  }

  lemma RunStepKeeps(s: State, call: Call, lo: nat, hi: nat)
    requires RunInv(s, lo, hi) && LegalCall(s, call) && lo > 0
    ensures RunInv(Perform(s, call), lo, hi)
  {
    hide RunInv, AllocStep, AllocAlignedStep, Step;
    match call
    case CAlloc(size) => AllocKeeps(s, size, lo, hi);
    case CFree(ptr) =>
      if ptr == 0 {
        FreeNothing(s.blocks);
      } else {
        FreeKeeps(s, ptr, s.aligned, lo, hi);
      }
    case CAllocAligned(size, alignment) => AllocAlignedKeeps(s, size, alignment, lo, hi);
    case CFreeAligned(ptr) =>
      if ptr in s.aligned {
        FreeAlignedKeeps(s, ptr, lo, hi);
      }
  }

  /** After every legal run of plain and aligned operations from heap_init, the blocks tile the arena coalesced and
      every aligned pointer in use lies in a live block of its own. */
  lemma {:induction false} MixedRunKeeps(s: State, calls: seq<Call>, lo: nat, hi: nat)
    requires RunInv(s, lo, hi) && LegalCalls(s, calls) && lo > 0
    ensures RunInv(RunCalls(s, calls), lo, hi)
    decreases |calls|
  {
    hide RunInv, LegalCall, Perform;
    if calls != [] {
      RunStepKeeps(s, calls[0], lo, hi);
      MixedRunKeeps(Perform(s, calls[0]), calls[1..], lo, hi);
    }
  }

  /** After heap_init. */
  function Start(lo: nat, total: nat): State { State(Initial(lo, total), map[]) }

  lemma StartInv(lo: nat, total: nat)
    requires lo % 16 == 0 && total >= MIN_BLOCK && total % 16 == 0
    ensures RunInv(Start(lo, total), lo, lo + total)
  {
    TilesOne(Block(lo, total, false));
  }

  /** So what two aligned pointers in use may touch, the word below included, never overlaps. */
  lemma AlignedApart(lo: nat, total: nat, calls: seq<Call>, p: nat, q: nat)
    requires lo > 0 && lo % 16 == 0 && total >= MIN_BLOCK && total % 16 == 0
    requires LegalCalls(Start(lo, total), calls)
    requires var s := RunCalls(Start(lo, total), calls); p in s.aligned && q in s.aligned && p != q
    ensures var s := RunCalls(Start(lo, total), calls);
            p + s.aligned[p].size <= q - PTR_SIZE || q + s.aligned[q].size <= p - PTR_SIZE
  {
    hide RunCalls, Start, Live, Inv, Tiles;
    StartInv(lo, total);
    MixedRunKeeps(Start(lo, total), calls, lo, lo + total);
    var s := RunCalls(Start(lo, total), calls);
    var a, b := s.aligned[p].block, s.aligned[q].block;
    InvTiles(s.blocks, lo, lo + total);
    LiveMember(s.blocks, a);
    LiveMember(s.blocks, b);
    var i :| 0 <= i < |s.blocks| && s.blocks[i] == a;
    var j :| 0 <= j < |s.blocks| && s.blocks[j] == b;
    ExtentsDisjoint(s.blocks, lo, lo + total, i, j);
  }
}
