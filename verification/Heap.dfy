/** The heap as the kernel keeps it: headers in arena memory, rewritten in place, and an
    address-sorted doubly linked free list threaded through the headers of free blocks. */
module Heap {
  import opened HeapSpec
  import opened Arith
  import opened Bits

  datatype Header = Header(size: nat, used: bool, next: nat, prev: nat)

  const NULL: nat := 0

  // ----- the free list as a sequence of addresses

  function FreeList(bs: seq<Block>): seq<nat> {
    if bs == [] then []
    else if bs[0].used then FreeList(bs[1..]) else [bs[0].addr] + FreeList(bs[1..])
  }

  function Nth(fl: seq<nat>, k: int): nat { if 0 <= k < |fl| then fl[k] else NULL }

  ghost predicate Ascending(fl: seq<nat>) {
    && (forall i, j :: 0 <= i < j < |fl| ==> fl[i] < fl[j])
    && (forall i :: 0 <= i < |fl| ==> fl[i] != NULL)
  }

  ghost predicate Links(m: map<nat, Header>, fl: seq<nat>, k: int)
    requires 0 <= k < |fl|
  {
    fl[k] in m && m[fl[k]].next == Nth(fl, k + 1) && m[fl[k]].prev == Nth(fl, k - 1)
  }

  ghost predicate Linked(m: map<nat, Header>, head: nat, fl: seq<nat>) {
    head == Nth(fl, 0) && forall k :: 0 <= k < |fl| ==> Links(m, fl, k)
  }

  ghost predicate HeaderOf(m: map<nat, Header>, b: Block) {
    b.addr in m && m[b.addr].size == b.size && m[b.addr].used == b.used
  }

  ghost predicate Headers(m: map<nat, Header>, bs: seq<Block>) {
    forall i :: 0 <= i < |bs| ==> HeaderOf(m, bs[i])
  }

  /** Only links may differ, except at the given addresses. */
  ghost predicate SameBlocks(m: map<nat, Header>, m': map<nat, Header>, but: set<nat>) {
    forall a :: a in m && a !in but ==> a in m' && m'[a].size == m[a].size && m'[a].used == m[a].used
  }

  lemma {:induction false} FreeConcat(a: seq<Block>, b: seq<Block>)
    ensures FreeList(a + b) == FreeList(a) + FreeList(b)
  {
    if a == [] {
      assert a + b == b;
    } else {
      FreeConcat(a[1..], b);
      assert (a + b)[1..] == a[1..] + b && (a + b)[0] == a[0];
      if a[0].used {
        assert FreeList(a + b) == FreeList(a[1..]) + FreeList(b);
      } else {
        assert FreeList(a + b) == [a[0].addr] + (FreeList(a[1..]) + FreeList(b));
      }
    }
  }

  lemma FreeSplice(bs: seq<Block>, l: nat, h: nat, mid: seq<Block>)
    requires l <= h <= |bs|
    ensures FreeList(Splice(bs, l, h, mid)) == FreeList(bs[..l]) + FreeList(mid) + FreeList(bs[h..])
  {
    FreeConcat(bs[..l] + mid, bs[h..]);
    FreeConcat(bs[..l], mid);
  }

  function FreeOne(b: Block): seq<nat> { if b.used then [] else [b.addr] }

  /** The list is cut at a block's place in the arena. */
  lemma FreeAround(bs: seq<Block>, i: nat)
    requires i < |bs|
    ensures FreeList(bs) == FreeList(bs[..i]) + FreeOne(bs[i]) + FreeList(bs[i + 1..])
  {
    hide FreeList, FreeOne;
    Parts(bs, i);
    FreeThree(bs[..i], bs[i], bs[i + 1..]);
  }

  lemma Parts<T>(s: seq<T>, i: nat)
    requires i < |s|
    ensures s[..i] + [s[i]] + s[i + 1..] == s
  {
  }

  lemma FreeThree(pre: seq<Block>, b: Block, post: seq<Block>)
    ensures FreeList(pre + [b] + post) == FreeList(pre) + FreeOne(b) + FreeList(post)
  {
    hide FreeList, FreeOne;
    FreeConcat(pre + [b], post);
    FreeConcat(pre, [b]);
    FreeSingle(b);
  }

  lemma FreeSingle(b: Block)
    ensures FreeList([b]) == FreeOne(b)
  {
    assert [b][1..] == [];
  }

  lemma AscendingCons(x: nat, s: seq<nat>)
    requires Ascending(s) && x != NULL && forall a :: a in s ==> x < a
    ensures Ascending([x] + s)
  {
    var t := [x] + s;
    forall i, j | 0 <= i < j < |t| ensures t[i] < t[j] {
      assert t[j] == s[j - 1] && t[j] in s;
      if i > 0 { assert t[i] == s[i - 1]; }
    }
  }

  lemma {:induction false} FreeAscending(bs: seq<Block>, lo: nat, hi: nat)
    requires Tiles(bs, lo, hi) && 0 < lo
    ensures Ascending(FreeList(bs)) && forall a :: a in FreeList(bs) ==> lo <= a < hi
  {
    TilesBounds(bs, lo, hi);
    if bs != [] {
      var rest := FreeList(bs[1..]);
      FreeAscending(bs[1..], bs[0].End(), hi);
      TilesBounds(bs[1..], bs[0].End(), hi);
      if bs[0].used {
        assert FreeList(bs) == rest;
      } else {
        assert FreeList(bs) == [lo] + rest;
        AscendingCons(lo, rest);
      }
    }
  }

  lemma {:induction false} FreeMember(bs: seq<Block>, j: nat)
    requires j < |bs| && !bs[j].used
    ensures bs[j].addr in FreeList(bs)
  {
    if j > 0 { FreeMember(bs[1..], j - 1); }
  }

  /** The block behind the k-th entry of the free list. */
  lemma {:induction false} FreeIndex(bs: seq<Block>, k: nat) returns (i: nat)
    requires k < |FreeList(bs)|
    ensures i < |bs| && !bs[i].used && bs[i].addr == FreeList(bs)[k]
    ensures FreeList(bs[..i]) == FreeList(bs)[..k] && FreeList(bs[i + 1..]) == FreeList(bs)[k + 1..]
  {
    if !bs[0].used && k == 0 {
      i := 0;
    } else {
      var k' := if bs[0].used then k else k - 1;
      i := FreeIndex(bs[1..], k');
      i := i + 1;
      assert bs[..i][1..] == bs[1..][..i - 1] && bs[1..][i..] == bs[i + 1..];
    }
  }

  // ----- what relinking does to the list

  function Last(fl: seq<nat>): nat { Nth(fl, |fl| - 1) }

  /** m' is m with the links between pre and post rerouted past the entry that stood there. */
  ghost predicate Bypassed(m: map<nat, Header>, m': map<nat, Header>, pre: seq<nat>, post: seq<nat>) {
    forall a :: a in m ==>
      && a in m'
      && m'[a].next == (if pre != [] && a == Last(pre) then Nth(post, 0) else m[a].next)
      && m'[a].prev == (if post != [] && a == post[0] then Last(pre) else m[a].prev)
  }

  lemma UnlinkedList(m: map<nat, Header>, m': map<nat, Header>, head: nat, head': nat, pre: seq<nat>, b: nat, post: seq<nat>)
    requires Linked(m, head, pre + [b] + post) && Ascending(pre + [b] + post)
    requires Bypassed(m, m', pre, post)
    requires head' == if pre == [] then Nth(post, 0) else head
    ensures Linked(m', head', pre + post)
  {
    var n := |pre|;
    var fl, fl' := pre + [b] + post, pre + post;
    forall k | 0 <= k < |fl'| ensures Links(m', fl', k) {
      var o := if k < n then k else k + 1;
      assert fl'[k] == fl[o] && Links(m, fl, o);
      assert n > 0 ==> fl[n - 1] == Last(pre);
      assert n + 1 < |fl| ==> fl[n + 1] == post[0];
      assert Nth(fl', k + 1) == if k == n - 1 then Nth(post, 0) else Nth(fl, o + 1);
      assert Nth(fl', k - 1) == if k == n then Last(pre) else Nth(fl, o - 1);
    }
  }

  /** m' is m with b linked in between pre and post. */
  ghost predicate Spliced(m: map<nat, Header>, m': map<nat, Header>, pre: seq<nat>, b: nat, post: seq<nat>) {
    && b in m' && m'[b].next == Nth(post, 0) && m'[b].prev == Last(pre)
    && forall a :: a in m && a != b ==>
      && a in m'
      && m'[a].next == (if pre != [] && a == Last(pre) then b else m[a].next)
      && m'[a].prev == (if post != [] && a == post[0] then b else m[a].prev)
  }

  lemma InsertedList(m: map<nat, Header>, m': map<nat, Header>, head: nat, head': nat, pre: seq<nat>, b: nat, post: seq<nat>)
    requires Linked(m, head, pre + post) && Ascending(pre + [b] + post)
    requires Spliced(m, m', pre, b, post)
    requires head' == if pre == [] then b else head
    ensures Linked(m', head', pre + [b] + post)
  {
    var n := |pre|;
    var fl, fl' := pre + post, pre + [b] + post;
    forall k | 0 <= k < |fl'| ensures Links(m', fl', k) {
      if k != n {
        var o := if k < n then k else k - 1;
        assert fl'[k] == fl[o] && Links(m, fl, o);
        assert fl'[k] != fl'[n];
        assert n > 0 ==> fl'[n - 1] == Last(pre);
        assert n + 1 < |fl'| ==> fl'[n + 1] == post[0];
        assert Nth(fl', k + 1) == if k == n - 1 then b else Nth(fl, o + 1);
        assert Nth(fl', k - 1) == if k == n + 1 then b else Nth(fl, o - 1);
      } else {
        assert fl'[k] == b;
      }
    }
  }

  /** The neighbourhood of an entry of the list. */
  lemma Around(m: map<nat, Header>, head: nat, pre: seq<nat>, b: nat, post: seq<nat>)
    requires Linked(m, head, pre + [b] + post) && Ascending(pre + [b] + post)
    ensures b in m && m[b].next == Nth(post, 0) && m[b].prev == Last(pre) && b != NULL
    ensures pre != [] ==> Last(pre) in m && NULL < Last(pre) < b
    ensures post != [] ==> post[0] in m && b < post[0]
    ensures head == if pre == [] then b else pre[0]
  {
    var fl, n := pre + [b] + post, |pre|;
    assert Links(m, fl, n) && fl[n] == b;
    assert Nth(fl, n + 1) == Nth(post, 0) && Nth(fl, n - 1) == Last(pre);
    if pre != [] { assert Links(m, fl, n - 1) && fl[n - 1] == Last(pre); }
    if post != [] { assert Links(m, fl, n + 1) && fl[n + 1] == post[0]; }
  }

  /** The headers once the block at b is split in front of post. */
  ghost function SplitHeaders(m: map<nat, Header>, b: nat, need: nat, post: seq<nat>): map<nat, Header>
    requires b in m && need <= m[b].size && (post != [] ==> post[0] in m)
  {
    var back := if post == [] then m else m[post[0] := m[post[0]].(prev := b + need)];
    back[b + need := Header(m[b].size - need, false, m[b].next, b)][b := m[b].(next := b + need, size := need)]
  }

  lemma SplitDone(m: map<nat, Header>, pre: seq<nat>, b: nat, need: nat, post: seq<nat>)
    requires b in m && 0 < need <= m[b].size && m[b].next == Nth(post, 0)
    requires post != [] ==> post[0] in m && b + need < post[0]
    ensures var m' := SplitHeaders(m, b, need, post);
            && Spliced(m, m', pre + [b], b + need, post) && SameBlocks(m, m', {b, b + need})
            && HeaderOf(m', Block(b, need, m[b].used)) && HeaderOf(m', Block(b + need, m[b].size - need, false))
  {
  }

  lemma SameBoth(m: map<nat, Header>, m1: map<nat, Header>, m2: map<nat, Header>, but: set<nat>)
    requires SameBlocks(m, m1, but) && SameBlocks(m1, m2, {})
    ensures SameBlocks(m, m2, but)
  {
  }

  /** The headers once the block at b is linked in between pre and post. */
  ghost function InsertHeaders(m: map<nat, Header>, pre: seq<nat>, b: nat, post: seq<nat>): map<nat, Header>
    requires b in m && (pre != [] ==> Last(pre) in m) && (post != [] ==> post[0] in m)
  {
    var m1 := m[b := m[b].(prev := Last(pre), next := Nth(post, 0))];
    var m2 := if pre == [] then m1 else m1[Last(pre) := m1[Last(pre)].(next := b)];
    if post == [] then m2 else m2[post[0] := m2[post[0]].(prev := b)]
  }

  lemma InsertDone(m: map<nat, Header>, pre: seq<nat>, b: nat, post: seq<nat>)
    requires b in m && (pre != [] ==> Last(pre) in m && Last(pre) < b) && (post != [] ==> post[0] in m && b < post[0])
    ensures Spliced(m, InsertHeaders(m, pre, b, post), pre, b, post) && SameBlocks(m, InsertHeaders(m, pre, b, post), {})
  {
  }

  lemma MarkedFree(m: map<nat, Header>, m1: map<nat, Header>, m2: map<nat, Header>, b: Block)
    requires HeaderOf(m, b) && m1 == m[b.addr := m[b.addr].(used := false)] && SameBlocks(m1, m2, {})
    ensures SameBlocks(m, m2, {b.addr}) && HeaderOf(m2, b.(used := false))
  {
  }

  lemma SameMore(m: map<nat, Header>, m1: map<nat, Header>, m2: map<nat, Header>, b: nat, c: nat)
    requires SameBlocks(m, m1, {b}) && SameBlocks(m1, m2, {b, c})
    ensures SameBlocks(m, m2, {b, c})
  {
  }

  lemma HeaderAt(m: map<nat, Header>, bs: seq<Block>, i: nat)
    requires Headers(m, bs) && i < |bs|
    ensures HeaderOf(m, bs[i])
  {
  }

  lemma HeadersFrame(m: map<nat, Header>, m': map<nat, Header>, but: set<nat>, bs: seq<Block>)
    requires Headers(m, bs) && SameBlocks(m, m', but) && forall b :: b in bs ==> b.addr !in but
    ensures Headers(m', bs)
  {
    forall i | 0 <= i < |bs| ensures HeaderOf(m', bs[i]) { assert HeaderOf(m, bs[i]) && bs[i] in bs; }
  }

  lemma HeadersSplice(m: map<nat, Header>, bs: seq<Block>, l: nat, h: nat, mid: seq<Block>)
    requires l <= h <= |bs| && Headers(m, bs[..l]) && Headers(m, mid) && Headers(m, bs[h..])
    ensures Headers(m, Splice(bs, l, h, mid))
  {
  }

  /** Blocks outside a stretch have their headers outside its extent. */
  lemma OutsideStretch(bs: seq<Block>, l: nat, h: nat, lo: nat, hi: nat)
    requires Tiles(bs, lo, hi) && l < h <= |bs|
    ensures forall b :: b in bs[..l] ==> b.addr < bs[l].addr
    ensures forall b :: b in bs[h..] ==> b.addr >= bs[h - 1].End()
  {
    forall b | b in bs[..l] ensures b.addr < bs[l].addr {
      var j :| 0 <= j < l && bs[..l][j] == b;
      Ordered(bs, j, l, lo, hi);
      BlockAt(bs, j, lo, hi);
    }
    forall b | b in bs[h..] ensures b.addr >= bs[h - 1].End() {
      var j :| 0 <= j < |bs| - h && bs[h..][j] == b;
      Ordered(bs, h - 1, h + j, lo, hi);
    }
  }

  /** Scanning the list up to entry k has seen exactly the free blocks below its block. */
  lemma FirstFitIs(m: map<nat, Header>, bs: seq<Block>, k: nat, i: nat, need: nat)
    requires Headers(m, bs) && i < |bs| && Fits(bs[i], need)
    requires k <= |FreeList(bs)| && FreeList(bs[..i]) == FreeList(bs)[..k]
    requires forall j :: 0 <= j < k ==> FreeList(bs)[j] in m && m[FreeList(bs)[j]].size < need
    ensures FirstFit(bs, need) == i
  {
    forall j | 0 <= j < i ensures !Fits(bs[j], need) {
      if !bs[j].used {
        FreeMember(bs[..i], j);
        assert bs[..i][j] == bs[j] && HeaderOf(m, bs[j]);
      }
    }
  }

  lemma NoneFits(m: map<nat, Header>, bs: seq<Block>, need: nat)
    requires Headers(m, bs)
    requires forall a :: a in FreeList(bs) ==> a in m && m[a].size < need
    ensures FirstFit(bs, need) == |bs|
  {
    forall j | 0 <= j < |bs| ensures !Fits(bs[j], need) {
      if !bs[j].used {
        FreeMember(bs, j);
        assert HeaderOf(m, bs[j]);
      }
    }
  }

  lemma AscendingSkip(pre: seq<nat>, b: nat, c: nat, post: seq<nat>)
    requires Ascending(pre + [b] + ([c] + post))
    ensures Ascending(pre + [b] + post) && b < c && (post != [] ==> c < post[0])
  {
    var fl, fl', n := pre + [b] + post, pre + [b] + ([c] + post), |pre|;
    assert fl'[n] == b && fl'[n + 1] == c && (post != [] ==> fl'[n + 2] == post[0]);
    assert forall k :: 0 <= k < |fl| ==> fl[k] == fl'[if k <= n then k else k + 1];
  }

  ghost predicate Within(fl: seq<nat>, lo: nat, hi: nat) {
    Ascending(fl) && forall a :: a in fl ==> lo <= a < hi
  }

  lemma AscendingJoin(a: seq<nat>, b: seq<nat>, lo: nat, mid: nat, hi: nat)
    requires Within(a, lo, mid) && Within(b, mid, hi) && lo <= mid <= hi
    ensures Within(a + b, lo, hi)
  {
    forall i, j | 0 <= i < j < |a + b| ensures (a + b)[i] < (a + b)[j] {
      if i < |a| <= j { assert a[i] in a && b[j - |a|] in b; }
    }
  }

  /** The parts of the free list below and above a block. */
  lemma FreeSides(bs: seq<Block>, i: nat, lo: nat, hi: nat)
    requires Tiles(bs, lo, hi) && 0 < lo && i < |bs|
    ensures Within(FreeList(bs[..i]), lo, bs[i].addr)
    ensures Within(FreeList(bs[i + 1..]), bs[i].End(), hi)
    ensures lo <= bs[i].addr && bs[i].End() <= hi
  {
    TilesSplit(bs, i, lo, hi);
    TilesSplit(bs, i + 1, lo, hi);
    FreeAscending(bs[..i], lo, bs[i].addr);
    FreeAscending(bs[i + 1..], bs[i].End(), hi);
    TilesBounds(bs[..i], lo, bs[i].addr);
    TilesBounds(bs[i + 1..], bs[i].End(), hi);
  }

  /** A list of addresses inside the block fits between its two sides. */
  lemma AscendingAround(pre: seq<nat>, mid: seq<nat>, post: seq<nat>, lo: nat, b: Block, hi: nat)
    requires Within(pre, lo, b.addr) && Within(mid, b.addr, b.End()) && Within(post, b.End(), hi)
    requires lo <= b.addr && b.End() <= hi
    ensures Ascending(pre + mid + post)
  {
    AscendingJoin(pre, mid, lo, b.addr, b.End());
    AscendingJoin(pre + mid, post, lo, b.End(), hi);
  }

  lemma CutFree(b: Block, need: nat)
    requires Fits(b, need) && WellSized(b) && b.addr > 0 && need >= MIN_BLOCK && need % 16 == 0
    ensures var rest := FreeList(Cut(b, need));
            && rest == (if b.size >= need + MIN_BLOCK then [b.addr + need] else [])
            && Within([b.addr] + rest, b.addr, b.End())
  {
    var mid := Cut(b, need);
    FreeSingle(mid[0]);
    assert FreeList(mid) == if |mid| == 2 then [b.addr + need] else [] by {
      if |mid| == 2 {
        FreeSingle(mid[1]);
        FreeConcat([mid[0]], [mid[1]]);
        assert mid == [mid[0]] + [mid[1]];
      }
    }
  }

  /** Carving is right about the headers and the free list once only headers inside the cut block changed. */
  lemma TakeValid(bs: seq<Block>, m: map<nat, Header>, m': map<nat, Header>, but: set<nat>, i: nat, need: nat, lo: nat, hi: nat)
    requires Inv(bs, lo, hi) && i < |bs| && Fits(bs[i], need) && need >= MIN_BLOCK && need % 16 == 0
    requires Headers(m, bs) && Headers(m', Cut(bs[i], need))
    requires SameBlocks(m, m', but) && forall a :: a in but ==> bs[i].addr <= a < bs[i].End()
    ensures Inv(Carve(bs, i, need), lo, hi) && Headers(m', Carve(bs, i, need))
    ensures FreeList(Carve(bs, i, need)) ==
            FreeList(bs[..i]) + FreeList(Cut(bs[i], need)) + FreeList(bs[i + 1..])
  {
    CarveKeeps(bs, i, need, lo, hi);
    FreeSplice(bs, i, i + 1, Cut(bs[i], need));
    OutsideStretch(bs, i, i + 1, lo, hi);
    HeadersFrame(m, m', but, bs[..i]);
    HeadersFrame(m, m', but, bs[i + 1..]);
    HeadersSplice(m', bs, i, i + 1, Cut(bs[i], need));
  }

  /** The list around a fitting block, before and after it is cut. */
  lemma TakeReady(bs: seq<Block>, i: nat, need: nat, pre: seq<nat>, rest: seq<nat>, post: seq<nat>, lo: nat, hi: nat)
    requires Tiles(bs, lo, hi) && 0 < lo && i < |bs| && Fits(bs[i], need) && need >= MIN_BLOCK && need % 16 == 0
    requires pre == FreeList(bs[..i]) && post == FreeList(bs[i + 1..]) && rest == FreeList(Cut(bs[i], need))
    ensures FreeList(bs) == pre + [bs[i].addr] + post
    ensures rest == if bs[i].size >= need + MIN_BLOCK then [bs[i].addr + need] else []
    ensures Ascending(pre + [bs[i].addr] + (rest + post))
    ensures WellSized(bs[i])
  {
    var b := bs[i].addr;
    BlockAt(bs, i, lo, hi);
    FreeAround(bs, i);
    FreeSides(bs, i, lo, hi);
    CutFree(bs[i], need);
    AscendingAround(pre, [b] + rest, post, lo, bs[i], hi);
    Regroup(pre, [b], rest, post);
  }

  lemma Regroup(a: seq<nat>, b: seq<nat>, c: seq<nat>, d: seq<nat>)
    ensures a + (b + c) + d == a + b + (c + d)
  {
  }

  lemma LinkedFrame(m: map<nat, Header>, m': map<nat, Header>, head: nat, fl: seq<nat>)
    requires Linked(m, head, fl)
    requires forall a :: a in m ==> a in m' && m'[a].next == m[a].next && m'[a].prev == m[a].prev
    ensures Linked(m', head, fl)
  {
    forall k | 0 <= k < |fl| ensures Links(m', fl, k) { assert Links(m, fl, k); }
  }

  /** The neighbours of a gap in the list. */
  lemma Sides(m: map<nat, Header>, head: nat, pre: seq<nat>, b: nat, post: seq<nat>)
    requires Linked(m, head, pre + post) && Ascending(pre + [b] + post)
    ensures b != NULL
    ensures pre != [] ==> Last(pre) in m && NULL < Last(pre) < b
    ensures post != [] ==> post[0] in m && b < post[0]
  {
    var fl, fl', n := pre + post, pre + [b] + post, |pre|;
    assert fl'[n] == b;
    if pre != [] { assert Links(m, fl, n - 1) && fl[n - 1] == Last(pre) == fl'[n - 1]; }
    if post != [] { assert Links(m, fl, n) && fl[n] == post[0] == fl'[n + 1]; }
  }

  lemma Parted(pre: seq<nat>, b: nat, post: seq<nat>)
    requires Ascending(pre + [b] + post)
    ensures forall k :: 0 <= k < |pre| ==> NULL < (pre + post)[k] < b
    ensures forall k :: |pre| <= k < |pre + post| ==> b < (pre + post)[k]
  {
    var fl, n := pre + [b] + post, |pre|;
    assert fl[n] == b;
    assert forall k :: 0 <= k < |pre + post| ==> (pre + post)[k] == fl[if k < n then k else k + 1];
  }

  /** The list around a block in use. */
  lemma FreeReady(bs: seq<Block>, i: nat, pre: seq<nat>, post: seq<nat>, lo: nat, hi: nat)
    requires Tiles(bs, lo, hi) && 0 < lo && i < |bs| && bs[i].used
    requires pre == FreeList(bs[..i]) && post == FreeList(bs[i + 1..])
    ensures FreeList(bs) == pre + post && Ascending(pre + [bs[i].addr] + post) && bs[i].addr > 0
  {
    BlockAt(bs, i, lo, hi);
    FreeAround(bs, i);
    assert pre + [] + post == pre + post;
    FreeSides(bs, i, lo, hi);
    AscendingAround(pre, [bs[i].addr], post, lo, bs[i], hi);
  }

  /** The first free block above touches this one exactly when the next block is free. */
  lemma MeetsRight(bs: seq<Block>, i: nat, post: seq<nat>, lo: nat, hi: nat)
    requires Tiles(bs, lo, hi) && 0 < lo && i < |bs| && post == FreeList(bs[i + 1..])
    ensures Nth(post, 0) == bs[i].End() <==> RightFree(bs, i)
    ensures RightFree(bs, i) ==> post == [bs[i + 1].addr] + FreeList(bs[i + 2..])
  {
    BlockAt(bs, i, lo, hi);
    if i + 1 < |bs| {
      BlockAt(bs, i + 1, lo, hi);
      FreeSides(bs, i + 1, lo, hi);
      assert bs[i + 1..][1..] == bs[i + 2..];
      assert post != [] ==> post[0] in post;
    }
  }

  /** The last free block below touches this one exactly when the previous block is free. */
  lemma MeetsLeft(m: map<nat, Header>, bs: seq<Block>, i: nat, pre: seq<nat>, lo: nat, hi: nat)
    requires Tiles(bs, lo, hi) && 0 < lo && i < |bs| && pre == FreeList(bs[..i]) && Headers(m, bs[..i])
    ensures pre != [] ==> Last(pre) in m && Last(pre) != NULL
    ensures pre != [] && Last(pre) + m[Last(pre)].size == bs[i].addr <==> LeftFree(bs, i)
    ensures LeftFree(bs, i) ==> pre == FreeList(bs[..i - 1]) + [bs[i - 1].addr] && HeaderOf(m, bs[i - 1])
  {
    if i > 0 {
      BlockAt(bs, i - 1, lo, hi);
      FreeAround(bs[..i], i - 1);
      assert bs[..i][..i - 1] == bs[..i - 1] && bs[..i][i..] == [] && HeaderOf(m, bs[..i][i - 1]);
      FreeSides(bs, i, lo, hi);
      if pre != [] { LastFree(m, bs, i, pre, lo, hi); }
    }
  }

  lemma LastFree(m: map<nat, Header>, bs: seq<Block>, i: nat, pre: seq<nat>, lo: nat, hi: nat)
    requires Tiles(bs, lo, hi) && 0 < lo && 0 < i < |bs| && pre == FreeList(bs[..i]) && Headers(m, bs[..i]) && pre != []
    ensures Last(pre) in m && Last(pre) >= lo
    ensures bs[i - 1].used ==> Last(pre) + m[Last(pre)].size < bs[i].addr
  {
    var j := FreeIndex(bs[..i], |pre| - 1);
    assert HeaderOf(m, bs[..i][j]);
    Ordered(bs, j, i, lo, hi);
    BlockAt(bs, i - 1, lo, hi);
    if j < i - 1 { Ordered(bs, j, i - 1, lo, hi); }
  }

  // The stretch of blocks that releasing block i turns into one.
  function Lower(bs: seq<Block>, i: nat): nat { if LeftFree(bs, i) then i - 1 else i }
  function Upper(bs: seq<Block>, i: nat): nat { if RightFree(bs, i) then i + 2 else i + 1 }

  function RightSize(bs: seq<Block>, i: nat): nat { if RightFree(bs, i) then bs[i + 1].size else 0 }

  lemma NeighbourHeaders(m: map<nat, Header>, m': map<nat, Header>, bs: seq<Block>, i: nat, lo: nat, hi: nat)
    requires Tiles(bs, lo, hi) && i < |bs| && Headers(m, bs) && SameBlocks(m, m', {bs[i].addr})
    ensures Headers(m', bs[..i]) && Headers(m', bs[i + 1..])
  {
    BlockAt(bs, i, lo, hi);
    OutsideStretch(bs, i, i + 1, lo, hi);
    HeadersFrame(m, m', {bs[i].addr}, bs[..i]);
    HeadersFrame(m, m', {bs[i].addr}, bs[i + 1..]);
  }

  /** Releasing is right about the headers and the free list once only headers of the stretch changed. */
  lemma ReleaseValid(bs: seq<Block>, m: map<nat, Header>, m': map<nat, Header>, i: nat, lo: nat, hi: nat)
    requires Inv(bs, lo, hi) && i < |bs| && bs[i].used
    requires Headers(m, bs) && HeaderOf(m', Merged(bs, i)) && SameBlocks(m, m', {bs[i].addr, Merged(bs, i).addr})
    ensures Inv(Release(bs, i), lo, hi) && Headers(m', Release(bs, i))
    ensures FreeList(Release(bs, i)) ==
            FreeList(bs[..Lower(bs, i)]) + [Merged(bs, i).addr] + FreeList(bs[Upper(bs, i)..])
  {
    var l, h := Lower(bs, i), Upper(bs, i);
    ReleaseKeeps(bs, i, lo, hi);
    FreeSplice(bs, l, h, [Merged(bs, i)]);
    FreeSingle(Merged(bs, i));
    OutsideStretch(bs, l, h, lo, hi);
    StretchHolds(bs, i, lo, hi);
    HeadersFrame(m, m', {bs[i].addr, Merged(bs, i).addr}, bs[..l]);
    HeadersFrame(m, m', {bs[i].addr, Merged(bs, i).addr}, bs[h..]);
    HeadersSplice(m', bs, l, h, [Merged(bs, i)]);
  }

  lemma StretchHolds(bs: seq<Block>, i: nat, lo: nat, hi: nat)
    requires Tiles(bs, lo, hi) && i < |bs|
    ensures bs[Lower(bs, i)].addr == Merged(bs, i).addr <= bs[i].addr < bs[Upper(bs, i) - 1].End()
  {
    BlockAt(bs, i, lo, hi);
    if i > 0 { BlockAt(bs, i - 1, lo, hi); }
    if i + 1 < |bs| { BlockAt(bs, i + 1, lo, hi); }
  }

  class KernelHeap {
    const base: nat   // heap_memory
    const total: nat  // CONFIG_HEAP_SIZE
    var head: nat     // heap_free_list
    var hdr: map<nat, Header>
    var saved: map<nat, nat>  // the word stored just below each aligned pointer
    ghost var blocks: seq<Block>

    ghost predicate Valid()
      reads this
    {
      && 0 < base && base % 16 == 0 && base + total + MIN_BLOCK < WORD
      && Inv(blocks, base, base + total)
      && Headers(hdr, blocks)
      && Linked(hdr, head, FreeList(blocks))
    }

    /** heap_init */
    constructor (base: nat, total: nat)
      requires 0 < base && base % 16 == 0 && base + total + MIN_BLOCK < WORD
      requires total >= MIN_BLOCK && total % 16 == 0
      ensures Valid() && blocks == Initial(base, total) && this.base == base && this.total == total
    {
      this.base, this.total := base, total;
      hdr := map[base := Header(total, false, NULL, NULL)];
      head := base;
      saved := map[];
      blocks := Initial(base, total);
      new;
      TilesOne(blocks[0]);
      FreeSingle(blocks[0]);
    }

    /** Split block: the tail of b becomes a free block linked right after it. */
    method Split(b: nat, need: nat, ghost pre: seq<nat>, ghost post: seq<nat>)
      requires Linked(hdr, head, pre + [b] + post) && Ascending(pre + [b] + ([b + need] + post))
      requires Ascending(pre + [b] + post) && 0 < need && (post != [] ==> b + need < post[0])
      requires b in hdr && need <= hdr[b].size
      modifies this`hdr
      ensures Linked(hdr, head, pre + [b] + ([b + need] + post))
      ensures SameBlocks(old(hdr), hdr, {b, b + need})
      ensures HeaderOf(hdr, Block(b, need, old(hdr[b].used)))
      ensures HeaderOf(hdr, Block(b + need, old(hdr[b].size) - need, false))
    {
      hide Linked, Ascending, Spliced, SameBlocks, HeaderOf;
      ghost var m := hdr;
      Around(m, head, pre, b, post);
      SplitDone(m, pre, b, need, post);
      var nb := b + need;
      hdr := hdr[nb := Header(hdr[b].size - need, false, hdr[b].next, b)];
      if hdr[b].next != NULL {
        hdr := hdr[hdr[b].next := hdr[hdr[b].next].(prev := nb)];
      }
      hdr := hdr[b := hdr[b].(next := nb, size := need)];
      assert hdr == SplitHeaders(m, b, need, post);
      assert pre + [b] + ([nb] + post) == (pre + [b]) + [nb] + post;
      InsertedList(m, hdr, head, head, pre + [b], nb, post);
    }

    /** Remove from free list. */
    method Unlink(b: nat, ghost pre: seq<nat>, ghost post: seq<nat>)
      requires Linked(hdr, head, pre + [b] + post) && Ascending(pre + [b] + post)
      modifies this`hdr, this`head
      ensures Linked(hdr, head, pre + post) && SameBlocks(old(hdr), hdr, {})
    {
      hide Linked, Ascending;
      ghost var m, h := hdr, head;
      Around(m, head, pre, b, post);
      var prev, next := hdr[b].prev, hdr[b].next;
      if prev != NULL {
        hdr := hdr[prev := hdr[prev].(next := next)];
      } else {
        head := next;
      }
      if next != NULL {
        hdr := hdr[next := hdr[next].(prev := prev)];
      }
      assert Bypassed(m, hdr, pre, post);
      UnlinkedList(m, hdr, h, head, pre, b, post);
    }

    /** Found suitable block: split it if the rest is big enough, mark it, unlink it. */
    method Take(b: nat, need: nat, ghost i: nat)
      requires Valid() && i < |blocks| && b == blocks[i].addr && Fits(blocks[i], need)
      requires need >= MIN_BLOCK && need % 16 == 0
      modifies this
      ensures Valid() && blocks == Carve(old(blocks), i, need) && saved == old(saved)
    {
      hide Inv, Tiles, Headers, Linked, Ascending, FreeList, Cut, Carve, HeaderOf, SameBlocks;
      ghost var bs, m := blocks, hdr;
      ghost var pre, post, rest := FreeList(bs[..i]), FreeList(bs[i + 1..]), FreeList(Cut(bs[i], need));
      InvTiles(bs, base, base + total);
      HeaderAt(hdr, bs, i);
      TakeReady(bs, i, need, pre, rest, post, base, base + total);
      ghost var but := Cleave(b, bs[i], need, pre, rest, post);
      ghost var m1 := hdr;
      Unlink(b, pre, rest + post);
      HeadersFrame(m1, hdr, {}, Cut(bs[i], need));
      SameBoth(m, m1, hdr, but);
      blocks := Carve(bs, i, need);
      TakeValid(bs, m, hdr, but, i, need, base, base + total);
      assert pre + rest + post == pre + (rest + post);
    }

    /** The block's own headers: cut in two when it is large enough, then marked used. */
    method Cleave(b: nat, ghost blk: Block, need: nat, ghost pre: seq<nat>, ghost rest: seq<nat>, ghost post: seq<nat>)
      returns (ghost but: set<nat>)
      requires b == blk.addr && HeaderOf(hdr, blk) && Fits(blk, need) && need > 0
      requires Linked(hdr, head, pre + [blk.addr] + post) && Ascending(pre + [blk.addr] + (rest + post))
      requires rest == if blk.size >= need + MIN_BLOCK then [blk.addr + need] else []
      modifies this`hdr
      ensures Linked(hdr, head, pre + [blk.addr] + (rest + post))
      ensures Headers(hdr, Cut(blk, need)) && SameBlocks(old(hdr), hdr, but)
      ensures forall a :: a in but ==> blk.addr <= a < blk.End()
    {
      but := {b};
      if hdr[b].size >= need + MIN_BLOCK {
        AscendingSkip(pre, b, b + need, post);
        Split(b, need, pre, post);
        but := {b, b + need};
      } else {
        assert rest + post == post;
      }
      ghost var m := hdr;
      hdr := hdr[b := hdr[b].(used := true)];
      LinkedFrame(m, hdr, head, pre + [b] + (rest + post));
    }

    /** heap_alloc: NULL exactly when no free block has room, otherwise the lowest-addressed one that has. */
    method Alloc(size: nat) returns (ptr: nat)
      requires Valid() && size < WORD
      modifies this
      ensures Valid() && blocks == AllocStep(old(blocks), size) && saved == old(saved)
      ensures ptr == NULL <==> size == 0 || forall b :: b in old(blocks) ==> !Room(b, size)
      ensures if ptr == NULL then blocks == old(blocks) else Given(old(blocks), blocks, size, ptr)
    {
      if size == 0 { return NULL; }
      ServedExactly(blocks, size, base, base + total);
      hide Valid, FirstFit, Room, Given;
      ptr := AllocBlock(Need(size));
    }

    /** Its search and what follows, under the lock. */
    method AllocBlock(need: nat) returns (ptr: nat)
      requires Valid() && need >= MIN_BLOCK && need % 16 == 0
      modifies this
      ensures Valid() && saved == old(saved)
      ensures var i := FirstFit(old(blocks), need);
              if i == |old(blocks)| then ptr == NULL && blocks == old(blocks)
              else ptr == old(blocks)[i].addr + HEADER && blocks == Carve(old(blocks), i, need)
    {
      ghost var fl, k := FreeList(blocks), 0;
      var b := head;
      FreeAscending(blocks, base, base + total);
      while b != NULL
        invariant unchanged(this) && k <= |fl| && b == Nth(fl, k)
        invariant forall j :: 0 <= j < k ==> fl[j] in hdr && hdr[fl[j]].size < need
        decreases |fl| - k
      {
        assert Links(hdr, fl, k);
        ghost var i := FreeIndex(blocks, k);
        assert HeaderOf(hdr, blocks[i]);
        if !hdr[b].used && hdr[b].size >= need {
          FirstFitIs(hdr, blocks, k, i, need);
          Take(b, need, i);
          return b + HEADER;
        }
        b := hdr[b].next;
        k := k + 1;
      }
      NoneFits(hdr, blocks, need);
      return NULL;
    }

    method Insert(b: nat, prev: nat, next: nat, ghost pre: seq<nat>, ghost post: seq<nat>)
      requires Linked(hdr, head, pre + post) && Ascending(pre + [b] + post)
      requires b in hdr && prev == Last(pre) && next == Nth(post, 0)
      modifies this`hdr, this`head
      ensures Linked(hdr, head, pre + [b] + post) && SameBlocks(old(hdr), hdr, {})
    {
      hide Linked, Ascending, Spliced, SameBlocks;
      ghost var m, h := hdr, head;
      Sides(m, head, pre, b, post);
      hdr := hdr[b := hdr[b].(prev := prev, next := next)];
      if prev != NULL {
        hdr := hdr[prev := hdr[prev].(next := b)];
      } else {
        head := b;
      }
      if next != NULL {
        hdr := hdr[next := hdr[next].(prev := b)];
      }
      InsertDone(m, pre, b, post);
      assert hdr == InsertHeaders(m, pre, b, post);
      InsertedList(m, hdr, h, head, pre, b, post);
    }

    /** Coalesce with next block. */
    method AbsorbNext(b: nat, next: nat, ghost pre: seq<nat>, ghost post: seq<nat>)
      requires post != [] && next == post[0]
      requires Linked(hdr, head, pre + [b] + post) && Ascending(pre + [b] + post)
      requires b in hdr && next in hdr
      modifies this`hdr
      ensures Linked(hdr, head, pre + [b] + post[1..]) && SameBlocks(old(hdr), hdr, {b})
      ensures HeaderOf(hdr, Block(b, old(hdr[b].size + hdr[next].size), old(hdr[b].used)))
    {
      hide Linked, Ascending;
      ghost var m := hdr;
      assert (pre + [b]) + [next] + post[1..] == pre + [b] + post;
      Around(m, head, pre + [b], next, post[1..]);
      hdr := hdr[b := hdr[b].(size := hdr[b].size + hdr[next].size)];
      hdr := hdr[b := hdr[b].(next := hdr[next].next)];
      if hdr[next].next != NULL {
        hdr := hdr[hdr[next].next := hdr[hdr[next].next].(prev := b)];
      }
      assert Bypassed(m, hdr, pre + [b], post[1..]);
      UnlinkedList(m, hdr, head, head, pre + [b], next, post[1..]);
    }

    /** Coalesce with previous block. */
    method AbsorbPrev(prev: nat, b: nat, ghost pre: seq<nat>, ghost post: seq<nat>)
      requires pre != [] && prev == Last(pre)
      requires Linked(hdr, head, pre + [b] + post) && Ascending(pre + [b] + post)
      requires b in hdr && prev in hdr
      modifies this`hdr
      ensures Linked(hdr, head, pre + post) && SameBlocks(old(hdr), hdr, {prev})
      ensures HeaderOf(hdr, Block(prev, old(hdr[prev].size + hdr[b].size), old(hdr[prev].used)))
    {
      hide Linked, Ascending;
      ghost var m := hdr;
      Around(m, head, pre, b, post);
      hdr := hdr[prev := hdr[prev].(size := hdr[prev].size + hdr[b].size)];
      hdr := hdr[prev := hdr[prev].(next := hdr[b].next)];
      if hdr[b].next != NULL {
        hdr := hdr[hdr[b].next := hdr[hdr[b].next].(prev := prev)];
      }
      assert Bypassed(m, hdr, pre, post);
      UnlinkedList(m, hdr, head, head, pre, b, post);
    }

    /** heap_free of NULL or of a live payload. */
    method Free(ptr: nat)
      requires Valid() && (ptr == NULL || Find(blocks, ptr) < |blocks|)
      modifies this
      ensures Valid() && blocks == Step(old(blocks), Op.Free(ptr)) && saved == old(saved)
    {
      if ptr == NULL { return; }
      hide Inv, Tiles, Headers, Linked, Ascending, FreeList, SameBlocks, Release, Merged, Find, LeftFree, RightFree;
      ghost var bs, m, i := blocks, hdr, Find(blocks, ptr);
      ghost var pre, post := FreeList(bs[..i]), FreeList(bs[i + 1..]);
      InvTiles(bs, base, base + total);
      FreeReady(bs, i, pre, post, base, base + total);
      HeaderAt(hdr, bs, i);
      var b := ptr - HEADER;
      var prev, next := PutBack(b, bs[i], pre, post);
      NeighbourHeaders(m, hdr, bs, i, base, base + total);
      ghost var m2 := hdr;
      Coalesce(b, prev, next, bs, i, pre, post);
      SameMore(m, m2, hdr, b, Merged(bs, i).addr);
      blocks := Release(bs, i);
      ReleaseValid(bs, m, hdr, i, base, base + total);
    }

    /** The block is marked free and linked in at its place. */
    method PutBack(b: nat, ghost blk: Block, ghost pre: seq<nat>, ghost post: seq<nat>) returns (prev: nat, next: nat)
      requires b == blk.addr && HeaderOf(hdr, blk) && Linked(hdr, head, pre + post) && Ascending(pre + [b] + post)
      modifies this`hdr, this`head
      ensures Linked(hdr, head, pre + [b] + post) && prev == Last(pre) && next == Nth(post, 0)
      ensures SameBlocks(old(hdr), hdr, {b}) && HeaderOf(hdr, blk.(used := false))
    {
      hide Linked, Ascending, SameBlocks;
      ghost var m := hdr;
      hdr := hdr[b := hdr[b].(used := false)];
      LinkedFrame(m, hdr, head, pre + post);
      ghost var m1 := hdr;
      prev, next := Position(b, pre, post);
      Insert(b, prev, next, pre, post);
      MarkedFree(m, m1, hdr, blk);
    }

    method Coalesce(b: nat, prev: nat, next: nat, ghost bs: seq<Block>, ghost i: nat, ghost pre: seq<nat>, ghost post: seq<nat>)
      requires 0 < base && Tiles(bs, base, base + total) && i < |bs| && bs[i].addr == b > 0
      requires pre == FreeList(bs[..i]) && post == FreeList(bs[i + 1..]) && prev == Last(pre) && next == Nth(post, 0)
      requires Linked(hdr, head, pre + [b] + post) && Ascending(pre + [b] + post)
      requires HeaderOf(hdr, bs[i].(used := false)) && Headers(hdr, bs[..i]) && Headers(hdr, bs[i + 1..])
      modifies this`hdr
      ensures Linked(hdr, head, FreeList(bs[..Lower(bs, i)]) + [Merged(bs, i).addr] + FreeList(bs[Upper(bs, i)..]))
      ensures HeaderOf(hdr, Merged(bs, i)) && SameBlocks(old(hdr), hdr, {b, Merged(bs, i).addr})
    {
      ghost var m := hdr;
      CoalesceNext(b, next, bs, i, pre, post);
      OutsideStretch(bs, i, i + 1, base, base + total);
      HeadersFrame(m, hdr, {b}, bs[..i]);
      CoalescePrev(prev, b, bs, i, pre, FreeList(bs[Upper(bs, i)..]));
    }

    method CoalesceNext(b: nat, next: nat, ghost bs: seq<Block>, ghost i: nat, ghost pre: seq<nat>, ghost post: seq<nat>)
      requires 0 < base && Tiles(bs, base, base + total) && i < |bs| && bs[i].addr == b
      requires post == FreeList(bs[i + 1..]) && next == Nth(post, 0)
      requires Linked(hdr, head, pre + [b] + post) && Ascending(pre + [b] + post)
      requires b > 0 && HeaderOf(hdr, bs[i].(used := false)) && Headers(hdr, bs[i + 1..])
      modifies this`hdr
      ensures Linked(hdr, head, pre + [b] + FreeList(bs[Upper(bs, i)..]))
      ensures Ascending(pre + [b] + FreeList(bs[Upper(bs, i)..]))
      ensures SameBlocks(old(hdr), hdr, {b})
      ensures HeaderOf(hdr, Block(b, bs[i].size + RightSize(bs, i), false))
    {
      MeetsRight(bs, i, post, base, base + total);
      ghost var right := if RightFree(bs, i) then bs[i + 1] else bs[i];
      assert RightFree(bs, i) ==> right == bs[i + 1..][0];
      JoinNext(b, next, RightFree(bs, i), right, pre, post, FreeList(bs[Upper(bs, i)..]));
    }

    method JoinNext(b: nat, next: nat, ghost meets: bool, ghost right: Block, ghost pre: seq<nat>, ghost post: seq<nat>, ghost up: seq<nat>)
      requires b in hdr && b > 0 && next == Nth(post, 0) && (meets <==> next == b + hdr[b].size)
      requires if meets then post == [right.addr] + up && HeaderOf(hdr, right) else up == post
      requires Linked(hdr, head, pre + [b] + post) && Ascending(pre + [b] + post)
      modifies this`hdr
      ensures Linked(hdr, head, pre + [b] + up) && Ascending(pre + [b] + up)
      ensures SameBlocks(old(hdr), hdr, {b})
      ensures HeaderOf(hdr, Block(b, old(hdr[b].size) + (if meets then right.size else 0), old(hdr[b].used)))
    {
      if next != NULL && b + hdr[b].size == next {
        AscendingSkip(pre, b, next, up);
        AbsorbNext(b, next, pre, post);
        assert post[1..] == up;
      }
    }

    method CoalescePrev(prev: nat, b: nat, ghost bs: seq<Block>, ghost i: nat, ghost pre: seq<nat>, ghost post: seq<nat>)
      requires 0 < base && Tiles(bs, base, base + total) && i < |bs| && bs[i].addr == b
      requires pre == FreeList(bs[..i]) && prev == Last(pre)
      requires Linked(hdr, head, pre + [b] + post) && Ascending(pre + [b] + post)
      requires HeaderOf(hdr, Block(b, bs[i].size + RightSize(bs, i), false)) && Headers(hdr, bs[..i])
      modifies this`hdr
      ensures Linked(hdr, head, FreeList(bs[..Lower(bs, i)]) + [Merged(bs, i).addr] + post)
      ensures HeaderOf(hdr, Merged(bs, i)) && SameBlocks(old(hdr), hdr, {Merged(bs, i).addr})
    {
      MeetsLeft(hdr, bs, i, pre, base, base + total);
      if prev != NULL && prev + hdr[prev].size == b {
        AbsorbPrev(prev, b, pre, post);
      }
    }

    /** Find position in free list (sorted by address). */
    method Position(b: nat, ghost pre: seq<nat>, ghost post: seq<nat>) returns (prev: nat, next: nat)
      requires Linked(hdr, head, pre + post) && Ascending(pre + [b] + post)
      ensures prev == Last(pre) && next == Nth(post, 0)
    {
      ghost var fl, k := pre + post, 0;
      prev, next := NULL, head;
      Parted(pre, b, post);
      while next != NULL && next < b
        invariant k <= |pre| && prev == Nth(fl, k - 1) && next == Nth(fl, k)
        decreases |pre| - k
      {
        assert Links(hdr, fl, k);
        prev := next;
        next := hdr[next].next;
        k := k + 1;
      }
    }

    /** heap_alloc_aligned: the pointer and the word before it lie inside the payload of one new live block, and for
        a power of two, for which alone the mask rounds down (Bits.MaskRoundsExactly), the pointer is aligned. */
    method AllocAligned(size: nat, alignment: nat) returns (ptr: nat)
      requires Valid() && size + alignment + GRAIN + PTR_SIZE + MIN_BLOCK < WORD
      modifies this
      ensures Valid() && blocks == AllocStep(old(blocks), AlignedTotal(size, alignment))
      ensures ptr == NULL <==> forall b :: b in old(blocks) ==> !Room(b, size + (if alignment < 16 then 16 else alignment) + 8)
      ensures ptr == NULL ==> saved == old(saved) && blocks == old(blocks)
      ensures ptr != NULL ==> exists raw: nat ::
                (Given(old(blocks), blocks, AlignedTotal(size, alignment), raw) && Placed(raw, size, alignment, ptr)
                 && saved == old(saved)[ptr := raw])
    {
      hide Inv, Headers, Linked, FreeList, AllocStep, AndNot, Room, Given, PowerOfTwo;
      var a := AtLeastGrain(alignment);
      var want := size + a + PTR_SIZE;
      var raw := Alloc(want);
      if raw == NULL { return NULL; }
      AlignedPlaced(raw, size, alignment);
      ptr := AndNot(raw + PTR_SIZE + a - 1, a - 1);
      saved := saved[ptr := raw];
    }

    /** heap_free_aligned: releases the block recorded just below the pointer. */
    method FreeAligned(ptr: nat)
      requires Valid() && (ptr == NULL || (ptr in saved && Find(blocks, saved[ptr]) < |blocks|))
      modifies this
      ensures Valid()
      ensures blocks == if ptr == NULL then old(blocks) else Release(old(blocks), Find(old(blocks), old(saved[ptr])))
    {
      if ptr == NULL { return; }
      Free(saved[ptr]);
    }

    /** heap_get_stats: the walk over the arena ends, and accounts for every byte. */
    method GetStats() returns (used: nat, free: nat, largest: nat, count: nat)
      requires Valid()
      ensures used + free == total && count == |blocks|
      ensures used == SumTo(blocks, |blocks|, true) && free == SumTo(blocks, |blocks|, false)
      ensures forall b :: b in blocks && !b.used ==> b.size <= largest
      ensures largest == 0 || exists b :: b in blocks && !b.used && b.size == largest
    {
      used, free, largest, count := 0, 0, 0, 0;
      var block, end := base, base + total;
      TilesSplit(blocks, 0, base, end);
      while block < end
        invariant count <= |blocks| && block == Start(blocks, count, end)
        invariant used + free == block - base
        invariant used == SumTo(blocks, count, true) && free == SumTo(blocks, count, false)
        invariant forall k :: 0 <= k < count && !blocks[k].used ==> blocks[k].size <= largest
        invariant largest == 0 || exists b :: b in blocks && !b.used && b.size == largest
        decreases |blocks| - count
      {
        BlockAt(blocks, count, base, end);
        assert HeaderOf(hdr, blocks[count]) && blocks[count] in blocks;
        count := count + 1;
        if hdr[block].used {
          used := used + hdr[block].size;
        } else {
          free := free + hdr[block].size;
          if hdr[block].size > largest { largest := hdr[block].size; }
        }
        block := block + hdr[block].size;
      }
      if count < |blocks| { Ordered(blocks, count, |blocks|, base, end); BlockAt(blocks, count, base, end); }
    }
  }

  /** Total size of the used (or free) blocks among the first k. */
  function SumTo(bs: seq<Block>, k: nat, used: bool): nat
    requires k <= |bs|
  {
    if k == 0 then 0
    else SumTo(bs, k - 1, used) + (if bs[k - 1].used == used then bs[k - 1].size else 0)
  }

  lemma {:induction false} SumPrefix(a: seq<Block>, b: seq<Block>, k: nat, used: bool)
    requires k <= |b|
    ensures SumTo(a + b, |a| + k, used) == SumTo(a, |a|, used) + SumTo(b, k, used)
  {
    if k > 0 {
      SumPrefix(a, b, k - 1, used);
      assert (a + b)[|a| + k - 1] == b[k - 1];
    } else {
      SumSame(a, b, |a|, used);
    }
  }

  lemma {:induction false} SumSame(a: seq<Block>, b: seq<Block>, k: nat, used: bool)
    requires k <= |a|
    ensures SumTo(a + b, k, used) == SumTo(a, k, used)
  {
    if k > 0 { SumSame(a, b, k - 1, used); }
  }

  lemma SumSplice(bs: seq<Block>, l: nat, h: nat, mid: seq<Block>, used: bool)
    requires l <= h <= |bs|
    ensures var after := Splice(bs, l, h, mid);
            SumTo(after, |after|, used) - SumTo(mid, |mid|, used) == SumTo(bs, |bs|, used) - SumTo(bs[l..h], h - l, used)
  {
    var pre, post := bs[..l], bs[h..];
    assert bs == pre + bs[l..h] + post;
    SumPrefix(pre + bs[l..h], post, |post|, used);
    SumPrefix(pre, bs[l..h], h - l, used);
    SumPrefix(pre + mid, post, |post|, used);
    SumPrefix(pre, mid, |mid|, used);
  }

  lemma {:induction false} SumZero(bs: seq<Block>, k: nat)
    requires k <= |bs| && forall b :: b in bs ==> !b.used
    ensures SumTo(bs, k, true) == 0
  {
    if k > 0 {
      assert bs[k - 1] in bs;
      SumZero(bs, k - 1);
    }
  }

  /** What heap_get_stats counts as used: nothing in a heap with every block free; an allocation adds, and a release takes
      away, exactly the size of its block. */
  lemma UsedCounts(bs: seq<Block>, i: nat, need: nat)
    requires i < |bs|
    ensures (forall b :: b in bs ==> !b.used) ==> SumTo(bs, |bs|, true) == 0
    ensures !bs[i].used ==>
              var after := Carve(bs, i, need);
              i < |after| && after[i].used && SumTo(after, |after|, true) == SumTo(bs, |bs|, true) + after[i].size
    ensures bs[i].used ==>
              SumTo(Release(bs, i), |Release(bs, i)|, true) == SumTo(bs, |bs|, true) - bs[i].size
  {
    if forall b :: b in bs ==> !b.used { SumZero(bs, |bs|); }
    if !bs[i].used {
      SumSplice(bs, i, i + 1, Cut(bs[i], need), true);
      CutUsed(bs[i], need);
      assert bs[i..i + 1] == [bs[i]] && Carve(bs, i, need)[i] == Cut(bs[i], need)[0];
      SumOne(bs[i]);
    } else {
      var l, h := Lower(bs, i), Upper(bs, i);
      SumSplice(bs, l, h, [Merged(bs, i)], true);
      SumOne(Merged(bs, i));
      SumNear(bs, i);
    }
  }

  lemma SumOne(b: Block)
    ensures SumTo([b], 1, true) == if b.used then b.size else 0
  {
    assert SumTo([b], 0, true) == 0;
  }

  lemma CutUsed(b: Block, need: nat)
    ensures var c := Cut(b, need); SumTo(c, |c|, true) == c[0].size && c[0].used
  {
    var c := Cut(b, need);
    assert SumTo(c, 0, true) == 0 && SumTo(c, 1, true) == c[0].size;
  }

  lemma SumNear(bs: seq<Block>, i: nat)
    requires i < |bs| && bs[i].used
    ensures var l, h := Lower(bs, i), Upper(bs, i); SumTo(bs[l..h], h - l, true) == bs[i].size
  {
    var l, h := Lower(bs, i), Upper(bs, i);
    var c := bs[l..h];
    assert SumTo(c, 0, true) == 0;
    assert SumTo(c, 1, true) == if l == i then bs[i].size else 0;
    if h - l >= 2 { assert SumTo(c, 2, true) == bs[i].size; }
  }
}
