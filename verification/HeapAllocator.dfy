/** Circle's heap allocator: free lists by block size in front of a heap that only grows.  Addresses and sizes have
    32 bits. */
module HeapAllocator {
  import opened Common

  datatype Header = Header(size: nat, next: nat)

  /** A block with its header: where it starts and how much room it takes. */
  datatype Block = Block(at: nat, span: nat)

  /** The heap from `base` up to `next`: the headers in memory, the heads of the free lists, the
      blocks in order, what the free lists hold, and the blocks in use. */
  datatype Heap = Heap(base: nat, next: nat, hdr: map<nat, Header>, heads: seq<nat>,
                       blocks: seq<Block>, free: seq<seq<nat>>, live: set<nat>)

  /** The first bucket for at least `n` bytes. */
  function FirstFor(sizes: seq<nat>, n: nat): (b: nat)
    ensures b <= |sizes| && (b < |sizes| ==> n <= sizes[b]) && forall i :: 0 <= i < b ==> sizes[i] < n
  {
    if |sizes| == 0 || n <= sizes[0] then 0 else 1 + FirstFor(sizes[1..], n)
  }

  /** The bucket for just `n` bytes. */
  function BucketOf(sizes: seq<nat>, n: nat): (b: nat)
    ensures b <= |sizes| && (b < |sizes| ==> sizes[b] == n) && forall i :: 0 <= i < b ==> sizes[i] != n
  {
    if |sizes| == 0 || sizes[0] == n then 0 else 1 + BucketOf(sizes[1..], n)
  }

  predicate Aligned(x: nat, align: nat)
    requires align > 0
  {
    x % align == 0
  }

  lemma AlignedSum(x: nat, y: nat, align: nat)
    requires align > 0 && Aligned(x, align) && Aligned(y, align)
    ensures Aligned(x + y, align)
  {
    var i, j := x / align, y / align;
    assert x == i * align && y == j * align;
    MulMod(i + j, align);
    assert (i + j) * align == x + y;
  }

  lemma MulMod(k: nat, m: nat)
    requires m > 0
    ensures (k * m) % m == 0
  {
    if k > 0 {
      MulMod(k - 1, m);
      assert k * m == (k - 1) * m + m;
      AddMod((k - 1) * m, m);
    }
  }

  lemma AddMod(x: nat, m: nat)
    requires m > 0
    ensures (x + m) % m == x % m
  {
    var q := x / m;
    assert x + m == (q + 1) * m + x % m;
    DivIs(x + m, m, q + 1, x % m);
  }

  /** `n` rounded down to a multiple of the alignment. */
  function RoundDown(n: nat, align: nat): (r: nat)
    requires align > 0
    ensures Aligned(r, align) && r <= n < r + align
  {
    MulMod(n / align, align);
    n / align * align
  }

  function Nth(s: seq<nat>, k: nat): nat {
    if k < |s| then s[k] else 0
  }

  // ---------------------------------------------------------------- invariant

  /** Where the i-th block starts, or the heap ends. */
  function Start(h: Heap, i: nat): nat
    requires i <= |h.blocks|
  {
    if i < |h.blocks| then h.blocks[i].at else h.next
  }

  /** The blocks fill the heap without gaps. */
  ghost predicate Layout(h: Heap, align: nat)
    requires align > 0
  {
    && Start(h, 0) == h.base && Aligned(h.next, align)
    && forall i :: 0 <= i < |h.blocks| ==>
      && h.blocks[i].at > 0 && h.blocks[i].span >= align
      && Aligned(h.blocks[i].at, align) && h.blocks[i].at + h.blocks[i].span == Start(h, i + 1)
      && h.blocks[i].at in h.hdr
  }

  ghost predicate IsBlock(h: Heap, a: nat) {
    exists i :: 0 <= i < |h.blocks| && h.blocks[i].at == a
  }

  /** The free list `b` as it is linked in memory. */
  ghost predicate FreeList(h: Heap, sizes: seq<nat>, b: nat)
    requires b < |h.heads| == |h.free|
  {
    && h.heads[b] == Nth(h.free[b], 0)
    && (forall i, j :: 0 <= i < j < |h.free[b]| ==> h.free[b][i] != h.free[b][j])
    && forall k :: 0 <= k < |h.free[b]| ==>
      && var a := h.free[b][k];
      && IsBlock(h, a) && a in h.hdr && a !in h.live
      && h.hdr[a].next == Nth(h.free[b], k + 1) && BucketOf(sizes, h.hdr[a].size) == b
  }

  /** A block that is not in use is in the free list for its size if there is one, and only lost otherwise. */
  ghost predicate Fates(h: Heap, sizes: seq<nat>) {
    && (forall a :: a in h.live ==> IsBlock(h, a) && a in h.hdr)
    && forall i :: 0 <= i < |h.blocks| ==>
      var a := h.blocks[i].at;
      a !in h.live ==>
        (a in h.hdr && (BucketOf(sizes, h.hdr[a].size) < |h.free| ==> a in h.free[BucketOf(sizes, h.hdr[a].size)]))
  }

  ghost predicate Good(h: Heap, align: nat, sizes: seq<nat>) {
    && align > 0 && |h.heads| == |h.free| == |sizes|
    && Layout(h, align) && Fates(h, sizes)
    && forall b {:trigger FreeList(h, sizes, b)} :: 0 <= b < |sizes| ==> FreeList(h, sizes, b)
  }

  /** Every block has room for its header and as many bytes as the header says. */
  ghost predicate Roomy(h: Heap, align: nat) {
    forall i :: 0 <= i < |h.blocks| ==>
      h.blocks[i].at in h.hdr && h.blocks[i].span >= align + h.hdr[h.blocks[i].at].size
  }

  lemma {:induction false} StartsRise(h: Heap, align: nat, i: nat, j: nat)
    requires align > 0 && Layout(h, align) && i <= j <= |h.blocks|
    ensures Start(h, i) <= Start(h, j)
    ensures i < j ==> Start(h, i) + h.blocks[i].span <= Start(h, j)
    decreases j - i
  {
    if i < j { StartsRise(h, align, i + 1, j); }
  }

  /** Two blocks do not overlap, headers included. */
  lemma BlocksApart(h: Heap, align: nat, i: nat, j: nat)
    requires align > 0 && Layout(h, align) && i < |h.blocks| && j < |h.blocks| && i != j
    ensures h.blocks[i].at + h.blocks[i].span <= h.blocks[j].at || h.blocks[j].at + h.blocks[j].span <= h.blocks[i].at
  {
    if i < j { StartsRise(h, align, i, j); } else { StartsRise(h, align, j, i); }
  }

  function SpanSum(blocks: seq<Block>): nat {
    if |blocks| == 0 then 0 else blocks[0].span + SpanSum(blocks[1..])
  }

  /** All room below `next` belongs to blocks. */
  lemma {:induction false} NothingLeaks(h: Heap, align: nat, i: nat)
    requires align > 0 && Layout(h, align) && i <= |h.blocks|
    ensures SpanSum(h.blocks[i..]) == h.next - Start(h, i)
    decreases |h.blocks| - i
  {
    if i < |h.blocks| {
      NothingLeaks(h, align, i + 1);
      assert h.blocks[i..][1..] == h.blocks[i + 1..];
    }
  }

  /** A block is in use, in exactly one place of exactly one free list, or too large for all of them. */
  lemma OneFate(h: Heap, align: nat, sizes: seq<nat>, a: nat)
    requires Good(h, align, sizes) && IsBlock(h, a)
    ensures a in h.hdr
    ensures a in h.live ==> forall b :: 0 <= b < |sizes| ==> a !in h.free[b]
    ensures a !in h.live ==>
      forall b :: 0 <= b < |sizes| ==> (a in h.free[b] <==> b == BucketOf(sizes, h.hdr[a].size))
  {
    forall b | 0 <= b < |sizes|
      ensures a in h.hdr && (a in h.free[b] ==> a !in h.live && b == BucketOf(sizes, h.hdr[a].size))
    {
      assert FreeList(h, sizes, b);
    }
  }

  // ---------------------------------------------------------------- steps

  /** The first block of free list `b` is put to use. */
  function Reuse(h: Heap, b: nat): Heap
    requires b < |h.heads| == |h.free| && h.heads[b] in h.hdr && |h.free[b]| > 0
  {
    var a := h.heads[b];
    h.(hdr := h.hdr[a := h.hdr[a].(next := 0)], heads := h.heads[b := h.hdr[a].next],
       free := h.free[b := h.free[b][1..]], live := h.live + {a})
  }

  /** `h'` differs from `h` only in headers, free lists and use. */
  ghost predicate SameBlocks(h: Heap, h': Heap) {
    && h'.base == h.base && h'.next == h.next && h'.blocks == h.blocks
    && forall x :: x in h.hdr ==> x in h'.hdr && h'.hdr[x].size == h.hdr[x].size
  }

  lemma SameLayout(h: Heap, h': Heap, align: nat)
    requires align > 0 && SameBlocks(h, h') && Layout(h, align)
    ensures Layout(h', align) && forall x :: IsBlock(h', x) <==> IsBlock(h, x)
  {
    assert forall i :: 0 <= i <= |h.blocks| ==> Start(h', i) == Start(h, i);
    assert forall x :: IsBlock(h, x) ==> IsBlock(h', x);
    assert forall x :: IsBlock(h', x) ==> IsBlock(h, x);
  }

  /** Other free lists do not notice. */
  lemma OtherList(h: Heap, h': Heap, align: nat, sizes: seq<nat>, c: nat, a: nat)
    requires Good(h, align, sizes) && SameBlocks(h, h') && |h'.heads| == |h'.free| == |sizes| && c < |sizes|
    requires h'.heads[c] == h.heads[c] && h'.free[c] == h.free[c] && h'.live <= h.live + {a}
    requires a in h.hdr && BucketOf(sizes, h.hdr[a].size) != c
    requires forall x :: x in h.hdr && x != a ==> h'.hdr[x] == h.hdr[x]
    ensures FreeList(h', sizes, c)
  {
    hide Layout, Start, BucketOf;
    SameLayout(h, h', align);
    assert FreeList(h, sizes, c);
  }

  lemma ReuseList(h: Heap, align: nat, sizes: seq<nat>, b: nat)
    requires Good(h, align, sizes) && b < |sizes| && h.heads[b] != 0
    ensures |h.free[b]| > 0 && h.heads[b] in h.hdr && BucketOf(sizes, h.hdr[h.heads[b]].size) == b
    ensures h.heads[b] !in h.live && SameBlocks(h, Reuse(h, b)) && FreeList(Reuse(h, b), sizes, b)
    ensures IsBlock(h, h.heads[b]) && h.heads[b] == h.free[b][0]
  {
    hide Layout, Start, BucketOf, Fates, IsBlock;
    assert FreeList(h, sizes, b);
    var a := h.heads[b];
    assert a == h.free[b][0];
    SameLayout(h, Reuse(h, b), align);
    hide FreeList;
    WithoutFirst(h, sizes, b);
  }

  lemma WithoutFirst(h: Heap, sizes: seq<nat>, b: nat)
    requires b < |h.heads| == |h.free| && FreeList(h, sizes, b) && |h.free[b]| > 0 && h.heads[b] in h.hdr
    requires forall x :: IsBlock(Reuse(h, b), x) <==> IsBlock(h, x)
    ensures FreeList(Reuse(h, b), sizes, b)
  {
    hide IsBlock, BucketOf;
    var f, f' := h.free[b], Reuse(h, b).free[b];
    assert |f'| == |f| - 1 && forall k :: 0 <= k < |f'| ==> f'[k] == f[k + 1];
  }

  lemma ReuseGood(h: Heap, align: nat, sizes: seq<nat>, b: nat)
    requires Good(h, align, sizes) && b < |sizes| && h.heads[b] != 0
    ensures |h.free[b]| > 0 && h.heads[b] in h.hdr && BucketOf(sizes, h.hdr[h.heads[b]].size) == b
    ensures h.heads[b] !in h.live && Good(Reuse(h, b), align, sizes)
  {
    hide Layout, Start, BucketOf, IsBlock, FreeList;
    ReuseList(h, align, sizes, b);
    var h', a := Reuse(h, b), h.heads[b];
    SameLayout(h, h', align);
    forall c | 0 <= c < |sizes| ensures FreeList(h', sizes, c) {
      if c != b { OtherList(h, h', align, sizes, c, a); }
    }
    ReuseFates(h, sizes, b);
  }

  lemma ReuseFates(h: Heap, sizes: seq<nat>, b: nat)
    requires Fates(h, sizes) && b < |h.heads| == |h.free| == |sizes| && |h.free[b]| > 0
    requires h.heads[b] == h.free[b][0] && h.heads[b] in h.hdr && IsBlock(h, h.heads[b])
    requires SameBlocks(h, Reuse(h, b))
    ensures Fates(Reuse(h, b), sizes)
  {
    hide BucketOf;
    var h', a := Reuse(h, b), h.heads[b];
    assert forall x :: IsBlock(h, x) ==> IsBlock(h', x);
    assert h.free[b] == [a] + h.free[b][1..];
  }

  /** A new block at the end of the heap. */
  function Grow(h: Heap, span: nat, size: nat): Heap {
    h.(next := h.next + span, hdr := h.hdr[h.next := Header(size, 0)],
       blocks := h.blocks + [Block(h.next, span)], live := h.live + {h.next})
  }

  lemma GrowLayout(h: Heap, align: nat, sizes: seq<nat>, span: nat, size: nat)
    requires Good(h, align, sizes) && h.next > 0 && span >= align && Aligned(span, align)
    ensures Layout(Grow(h, span, size), align) && forall i :: 0 <= i < |h.blocks| ==> h.blocks[i].at < h.next
  {
    hide FreeList, Fates, BucketOf;
    var h', n := Grow(h, span, size), |h.blocks|;
    AlignedSum(h.next, span, align);
    forall i | 0 <= i < n ensures h.blocks[i].at < h.next { StartsRise(h, align, i, n); }
    assert h'.blocks[n].at == h.next;
    assert forall i :: 0 <= i < n ==> h'.blocks[i] == h.blocks[i];
  }

  lemma GrowGood(h: Heap, align: nat, sizes: seq<nat>, span: nat, size: nat)
    requires Good(h, align, sizes) && h.next > 0 && span >= align && Aligned(span, align)
    ensures Good(Grow(h, span, size), align, sizes) && !IsBlock(h, h.next) && h.next !in h.live
  {
    var h' := Grow(h, span, size);
    GrowLayout(h, align, sizes, span, size);
    GrowBlocks(h, span, size);
    GrowFates(h, sizes, span, size);
    hide Layout, Start, BucketOf, Aligned, IsBlock, FreeList, Fates;
    forall c | 0 <= c < |sizes| ensures FreeList(h', sizes, c) {
      GrowList(h, sizes, span, size, c);
    }
  }

  lemma GrowFates(h: Heap, sizes: seq<nat>, span: nat, size: nat)
    requires Fates(h, sizes) && forall i :: 0 <= i < |h.blocks| ==> h.blocks[i].at < h.next
    requires forall x: nat :: IsBlock(h, x) ==> IsBlock(Grow(h, span, size), x) && x < h.next
    requires IsBlock(Grow(h, span, size), h.next)
    ensures Fates(Grow(h, span, size), sizes) && !IsBlock(h, h.next) && h.next !in h.live
  {
    hide IsBlock, BucketOf;
  }

  lemma GrowBlocks(h: Heap, span: nat, size: nat)
    requires forall i :: 0 <= i < |h.blocks| ==> h.blocks[i].at < h.next
    ensures forall x: nat :: IsBlock(h, x) ==> IsBlock(Grow(h, span, size), x) && x < h.next
    ensures IsBlock(Grow(h, span, size), h.next)
  {
    var h', n := Grow(h, span, size), |h.blocks|;
    assert h'.blocks[n].at == h.next;
    forall x: nat | IsBlock(h, x) ensures IsBlock(h', x) && x < h.next {
      var i :| 0 <= i < n && h.blocks[i].at == x;
      assert h'.blocks[i].at == x;
    }
  }

  lemma GrowList(h: Heap, sizes: seq<nat>, span: nat, size: nat, c: nat)
    requires c < |h.heads| == |h.free| && FreeList(h, sizes, c)
    requires forall x: nat :: IsBlock(h, x) ==> IsBlock(Grow(h, span, size), x) && x < h.next
    ensures FreeList(Grow(h, span, size), sizes, c)
  {
    hide IsBlock, BucketOf;
  }

  /** A block in use is put in front of free list `b`. */
  function Shelve(h: Heap, a: nat, b: nat): Heap
    requires b < |h.heads| == |h.free| && a in h.hdr
  {
    h.(hdr := h.hdr[a := h.hdr[a].(next := h.heads[b])], heads := h.heads[b := a],
       free := h.free[b := [a] + h.free[b]], live := h.live - {a})
  }

  lemma ShelveList(h: Heap, align: nat, sizes: seq<nat>, a: nat)
    requires Good(h, align, sizes) && a in h.live
    ensures a in h.hdr && a > 0 && IsBlock(h, a)
    ensures var b := BucketOf(sizes, h.hdr[a].size);
      b < |sizes| ==> SameBlocks(h, Shelve(h, a, b)) && FreeList(Shelve(h, a, b), sizes, b)
  {
    LiveBlock(h, align, sizes, a);
    hide Layout, Start, BucketOf, Fates, IsBlock, FreeList;
    var b := BucketOf(sizes, h.hdr[a].size);
    if b < |sizes| {
      assert FreeList(h, sizes, b);
      SameLayout(h, Shelve(h, a, b), align);
      InFront(h, sizes, a, b);
    }
  }

  lemma InFront(h: Heap, sizes: seq<nat>, a: nat, b: nat)
    requires b < |h.heads| == |h.free| && FreeList(h, sizes, b)
    requires a in h.hdr && a in h.live && IsBlock(h, a) && BucketOf(sizes, h.hdr[a].size) == b
    requires forall x :: IsBlock(Shelve(h, a, b), x) <==> IsBlock(h, x)
    ensures FreeList(Shelve(h, a, b), sizes, b)
  {
    hide IsBlock, BucketOf;
    var h' := Shelve(h, a, b);
    var f, f' := h.free[b], h'.free[b];
    assert |f'| == |f| + 1 && f'[0] == a && forall k :: 0 < k < |f'| ==> f'[k] == f[k - 1];
  }

  lemma LiveBlock(h: Heap, align: nat, sizes: seq<nat>, a: nat)
    requires Good(h, align, sizes) && a in h.live
    ensures a in h.hdr && a > 0 && IsBlock(h, a)
  {
    hide FreeList, Start, BucketOf;
  }

  /** A block that is too large for the free lists is lost. */
  lemma LoseGood(h: Heap, align: nat, sizes: seq<nat>, a: nat)
    requires Good(h, align, sizes) && a in h.live && a in h.hdr && BucketOf(sizes, h.hdr[a].size) == |sizes|
    ensures Good(h.(live := h.live - {a}), align, sizes)
  {
    hide Layout, Start, BucketOf, IsBlock, FreeList;
    var h' := h.(live := h.live - {a});
    SameLayout(h, h', align);
    forall c | 0 <= c < |sizes| ensures FreeList(h', sizes, c) { OtherList(h, h', align, sizes, c, a); }
  }

  lemma ShelveFates(h: Heap, sizes: seq<nat>, a: nat, b: nat)
    requires Fates(h, sizes) && b < |h.heads| == |h.free| == |sizes| && a in h.hdr
    requires b == BucketOf(sizes, h.hdr[a].size) && SameBlocks(h, Shelve(h, a, b))
    ensures Fates(Shelve(h, a, b), sizes)
  {
    hide BucketOf;
    assert forall x :: IsBlock(h, x) ==> IsBlock(Shelve(h, a, b), x);
  }

  lemma ShelveGood(h: Heap, align: nat, sizes: seq<nat>, a: nat)
    requires Good(h, align, sizes) && a in h.live
    ensures a in h.hdr && a > 0
    ensures var b := BucketOf(sizes, h.hdr[a].size);
      Good(if b < |sizes| then Shelve(h, a, b) else h.(live := h.live - {a}), align, sizes)
  {
    hide Layout, Start, BucketOf, IsBlock, FreeList;
    ShelveList(h, align, sizes, a);
    var b := BucketOf(sizes, h.hdr[a].size);
    if b < |sizes| {
      SameLayout(h, Shelve(h, a, b), align);
      forall c | 0 <= c < |sizes| ensures FreeList(Shelve(h, a, b), sizes, c) {
        if c != b { OtherList(h, Shelve(h, a, b), align, sizes, c, a); }
      }
      ShelveFates(h, sizes, a, b);
    } else {
      LoseGood(h, align, sizes, a);
    }
  }

  // ---------------------------------------------------------------- the allocator

  function Byte(mem: map<nat, int>, a: nat): int {
    if a in mem then mem[a] else 0
  }

  /** The `n` bytes from address `a` on. */
  function Bytes(mem: map<nat, int>, a: nat, n: nat): (s: seq<int>)
    ensures |s| == n && forall i :: 0 <= i < n ==> s[i] == Byte(mem, a + i)
  {
    seq(n, i requires 0 <= i < n => Byte(mem, a + i))
  }

  lemma BytesSame(was: map<nat, int>, mem: map<nat, int>, lo: nat, n: nat, a: nat, k: nat)
    requires forall x: nat :: !(lo <= x < lo + n) ==> Byte(mem, x) == Byte(was, x)
    requires a + k <= lo || lo + n <= a
    ensures Bytes(mem, a, k) == Bytes(was, a, k)
  {
  }

  /** The room a block of `n` bytes is given, in 32-bit arithmetic. */
  function SpanFor(n: nat, align: nat): nat
    requires align > 0
  {
    RoundDown((align + n + align - 1) % WORD, align)
  }

  /** The room is enough unless its computation overflows, and then no larger than it need be. */
  lemma SpanEnough(n: nat, align: nat)
    requires 0 < align && 4 * align <= WORD && n < WORD
    ensures n + 2 * align - 1 < WORD ==> align + n <= SpanFor(n, align) < align + n + align
    ensures n + 2 * align - 1 >= WORD ==> SpanFor(n, align) <= n + 2 * align - 1 - WORD < SpanFor(n, align) + align
    ensures SpanFor(n, align) >= align + n <==> n + 2 * align - 1 < WORD
    ensures SpanFor(n, align) == 0 || SpanFor(n, align) >= align
    ensures Aligned(SpanFor(n, align), align) && SpanFor(n, align) < WORD
  {
    var span := SpanFor(n, align);
    if 0 < span < align {
      DivIs(span, align, 0, span);
      assert false;
    }
    if n + 2 * align - 1 < WORD {
      assert span + align > n + 2 * align - 1;
    }
  }

  /** Whether a block for `n` bytes fits into the room that is left, by whole multiples of the alignment. */
  lemma SpanFits(n: nat, align: nat, room: nat)
    requires 0 < align && 4 * align <= WORD && n < WORD && room < WORD
    ensures n + 2 * align - 1 < WORD ==>
      (0 < SpanFor(n, align) <= room <==> align + n <= RoundDown(room, align))
    ensures n + 2 * align - 1 >= WORD ==>
      (0 < SpanFor(n, align) <= room <==>
        align <= n + 2 * align - 1 - WORD && RoundDown(n + 2 * align - 1 - WORD, align) <= room)
  {
    hide SpanFor, RoundDown, Aligned;
    SpanEnough(n, align);
    var span := SpanFor(n, align);
    if n + 2 * align - 1 < WORD {
      var d := RoundDown(room, align);
      RoundedBetween(span, room, align);
      if d < span { MultiplesApart(d, span, align); }
    } else {
      RoundedSame(span, RoundDown(n + 2 * align - 1 - WORD, align), n + 2 * align - 1 - WORD, align);
    }
  }

  lemma SpanWrapped(n: nat, align: nat)
    requires 0 < align && 4 * align <= WORD && n < WORD
    ensures n + 2 * align - 1 >= WORD ==> SpanFor(n, align) == RoundDown(n + 2 * align - 1 - WORD, align)
  {
    hide SpanFor, RoundDown, Aligned;
    SpanEnough(n, align);
    if n + 2 * align - 1 >= WORD {
      RoundedSame(SpanFor(n, align), RoundDown(n + 2 * align - 1 - WORD, align), n + 2 * align - 1 - WORD, align);
    }
  }

  /** Between multiples of the alignment there are steps of it. */
  lemma MultiplesApart(a: nat, b: nat, align: nat)
    requires align > 0 && Aligned(a, align) && Aligned(b, align) && a < b
    ensures a + align <= b
  {
    DivBounds(a, align);
    DivBounds(b, align);
    var i, j := a / align, b / align;
    if j <= i { TimesMono(align, j, i); }
    ScaleLess(align, i, j);
  }

  lemma RoundedSame(a: nat, b: nat, x: nat, align: nat)
    requires align > 0 && Aligned(a, align) && Aligned(b, align) && a <= x < a + align && b <= x < b + align
    ensures a == b
  {
    if a < b { MultiplesApart(a, b, align); }
    if b < a { MultiplesApart(b, a, align); }
  }

  lemma RoundedBetween(a: nat, x: nat, align: nat)
    requires align > 0 && Aligned(a, align)
    ensures a <= x <==> a <= RoundDown(x, align)
  {
    if RoundDown(x, align) < a { MultiplesApart(RoundDown(x, align), a, align); }
  }

  /** A request close to the address limit gets a block that holds nothing but its header. */
  lemma OverflowGivesNoRoom()
    ensures SpanFor(WORD - 63, 64) == 64
  {
    MulMod(1, 64);
  }

  /** How many bytes a request is served with. */
  function Served(sizes: seq<nat>, n: nat): nat {
    var b := FirstFor(sizes, n);
    if b < |sizes| then sizes[b] else n
  }

  class Allocator {
    const align: nat
    const sizes: seq<nat>
    const freeList: array<nat>
    var next: nat
    var limit: nat
    var reserve: nat
    var hdr: map<nat, Header>
    var mem: map<nat, int>
    ghost var base: nat
    ghost var blocks: seq<Block>
    ghost var free: seq<seq<nat>>
    ghost var live: set<nat>

    ghost function H(): Heap
      reads this, freeList
    {
      Heap(base, next, hdr, freeList[..], blocks, free, live)
    }

    ghost predicate Valid()
      reads this, freeList
    {
      && 0 < align && 4 * align <= WORD && freeList.Length == |sizes|
      && (forall i :: 0 <= i < |sizes| ==> 0 < sizes[i] && sizes[i] + 2 * align <= WORD)
      && Good(H(), align, sizes) && limit < WORD && next + reserve <= limit && (next == 0 ==> blocks == [])
    }

    constructor (align: nat, sizes: seq<nat>)
      requires 0 < align && 4 * align <= WORD
      requires forall i :: 0 <= i < |sizes| ==> 0 < sizes[i] && sizes[i] + 2 * align <= WORD
      ensures Valid() && this.align == align && this.sizes == sizes && next == 0 && live == {} && fresh(freeList)
    {
      this.align, this.sizes := align, sizes;
      freeList := new nat[|sizes|](i => 0);
      next, limit, reserve, hdr, mem := 0, 0, 0, map[], map[];
      base, blocks, live := 0, [], {};
      free := seq(|sizes|, i => []);
      new;
      forall b | 0 <= b < |sizes| ensures FreeList(H(), sizes, b) {
      }
    }

    /** The heap is to be the given region. */
    method Setup(nBase: nat, nSize: nat, nReserve: nat)
      requires Valid() && next == 0 && live == {}
      requires 0 < nBase && Aligned(nBase, align) && nBase + nSize < WORD && nReserve <= nSize
      modifies this
      ensures Valid() && next == nBase && limit == nBase + nSize && reserve == nReserve && live == {} && blocks == []
    {
      ghost var h := H();
      next := nBase;
      limit := nBase + nSize;
      reserve := nReserve;
      base := nBase;
      EmptyLists(h, sizes);
      forall b | 0 <= b < |sizes| ensures FreeList(H(), sizes, b) {
        assert FreeList(h, sizes, b);
      }
    }

    /** The number of bytes that have not been given to blocks. */
    method GetFreeSpace() returns (n: nat)
      requires Valid()
      ensures n == limit - next && (next > 0 ==> n == limit - base - SpanSum(blocks))
    {
      n := limit - next;
      NothingLeaks(H(), align, 0);
      assert blocks[0..] == blocks;
    }

    /** Looks for the first bucket that serves `nSize` bytes. */
    method FindBucket(nSize: nat) returns (b: nat)
      ensures b == FirstFor(sizes, nSize)
    {
      b := 0;
      while b < |sizes| && nSize > sizes[b]
        invariant b <= |sizes| && FirstFor(sizes, nSize) == b + FirstFor(sizes[b..], nSize)
      {
        assert sizes[b..][1..] == sizes[b + 1..];
        b := b + 1;
      }
    }

    /** Whether a request can be met: from the free list of the first bucket that is large enough, or because header
        and data fit into what is left of the heap in multiples of the alignment.  Close to the address limit what
        is left over after an overflow has to fit. */
    ghost predicate Available(n: nat)
      requires Valid()
      reads this, freeList
    {
      next > 0 &&
      var b, size, room := FirstFor(sizes, n), Served(sizes, n), limit - reserve - next;
      || (b < |sizes| && freeList[b] != 0)
      || if size + 2 * align - 1 < WORD then align + size <= RoundDown(room, align)
         else align <= size + 2 * align - 1 - WORD && RoundDown(size + 2 * align - 1 - WORD, align) <= room
    }

    /** Returns the address of `nSize` bytes, or 0. */
    method Allocate(nSize: nat) returns (r: nat)
      requires Valid() && nSize < WORD
      modifies this`next, this`reserve, this`hdr, this`blocks, this`free, this`live, freeList
      ensures Valid() && (r != 0 <==> old(Available(nSize)))
      ensures r != 0 ==>
        && r >= align && r - align !in old(live) && live == old(live) + {r - align} && Aligned(r, align)
        && r - align in hdr && hdr[r - align].size == Served(sizes, nSize) >= nSize
        && var b := FirstFor(sizes, nSize); Served(sizes, nSize) == if b < |sizes| then sizes[b] else nSize
      ensures r != 0 ==>
        var b, size := FirstFor(sizes, nSize), Served(sizes, nSize);
        if b < |sizes| && old(freeList[b]) != 0 then r == old(freeList[b]) + align && next == old(next)
        else
          && r == old(next) + align && next > old(next) && Aligned(next - old(next), align)
          && (size + 2 * align - 1 < WORD ==> align + size <= next - old(next) < align + size + align)
          && (size + 2 * align - 1 >= WORD ==> next - old(next) == RoundDown(size + 2 * align - 1 - WORD, align))
      ensures r == 0 ==> live == old(live) && hdr == old(hdr) && next == old(next) && (next > 0 ==> reserve == 0)
      ensures forall a :: a in old(live) ==> a in old(hdr) && a in hdr && hdr[a] == old(hdr)[a]
      ensures old(Roomy(H(), align)) ==> (Roomy(H(), align) <==> r == 0 || nSize + 2 * align - 1 < WORD)
    {
      hide Good, Roomy, SpanFor, Aligned, BucketOf, RoundDown, FirstFor;
      GoodSizes(H(), align, sizes);
      LiveKnown(H(), align, sizes);
      if next == 0 {
        return 0;
      }
      var b := FindBucket(nSize);
      var size := if b < |sizes| then sizes[b] else nSize;
      if b < |sizes| && freeList[b] != 0 {
        r := TakeFree(b);
      } else {
        SpanFits(size, align, limit - reserve - next);
        SpanEnough(size, align);
        SpanWrapped(size, align);
        r := Extend(size);
      }
    }

    /** Takes back the block at `p`; a block too large for the free lists is lost. */
    method Free(p: nat)
      requires Valid() && (p == 0 || (p >= align && p - align in live))
      modifies this`hdr, this`free, this`live, freeList
      ensures Valid() && live == if p == 0 then old(live) else old(live) - {p - align}
      ensures forall a :: a in old(hdr) ==> a in hdr && hdr[a].size == old(hdr)[a].size
      ensures old(Roomy(H(), align)) ==> Roomy(H(), align)
      ensures p != 0 && old(p - align in hdr) && BucketOf(sizes, old(hdr[p - align].size)) < |sizes| ==>
        freeList[BucketOf(sizes, old(hdr[p - align].size))] == p - align
    {
      hide Good, Roomy, BucketOf;
      if p == 0 {
        return;
      }
      ghost var h := H();
      var a := p - align;
      GoodSizes(h, align, sizes);
      ShelveGood(h, align, sizes, a);
      var b := FindEqual(hdr[a].size);
      if b < |sizes| {
        hdr := hdr[a := hdr[a].(next := freeList[b])];
        freeList[b] := a;
        free, live := free[b := [a] + free[b]], live - {a};
        assert H() == Shelve(h, a, b);
      } else {
        live := live - {a};
        assert H() == h.(live := h.live - {a});
      }
      SizesKept(h, H(), align);
    }

    /** A block that has been freed is the next one handed out for a size of its bucket. */
    method FreeThenAllocate(p: nat, nSize: nat) returns (r: nat)
      requires Valid() && nSize < WORD && p >= align && p - align in live && p - align in hdr
      requires FirstFor(sizes, nSize) < |sizes| && hdr[p - align].size == sizes[FirstFor(sizes, nSize)]
      modifies this`next, this`reserve, this`hdr, this`blocks, this`free, this`live, freeList
      ensures Valid() && r == p && live == old(live) && next == old(next)
    {
      hide Good, Roomy, BucketOf, FirstFor, Served, RoundDown, Aligned;
      LiveKnown(H(), align, sizes);
      LiveNext(H(), align, sizes, p - align);
      FirstIsOwn(sizes, nSize);
      Free(p);
      r := Allocate(nSize);
    }

    method FindEqual(nSize: nat) returns (b: nat)
      ensures b == BucketOf(sizes, nSize)
    {
      b := 0;
      while b < |sizes| && nSize != sizes[b]
        invariant b <= |sizes| && BucketOf(sizes, nSize) == b + BucketOf(sizes[b..], nSize)
      {
        assert sizes[b..][1..] == sizes[b + 1..];
        b := b + 1;
      }
    }

    /** Copies `n` bytes. */
    method MemCpy(dst: nat, src: nat, n: nat)
      modifies this`mem
      ensures forall x: nat :: !(dst <= x < dst + n) ==> Byte(mem, x) == Byte(old(mem), x)
      ensures dst + n <= src || src + n <= dst ==> Bytes(mem, dst, n) == Bytes(old(mem), src, n)
    {
      for i := 0 to n
        invariant forall x: nat :: !(dst <= x < dst + i) ==> Byte(mem, x) == Byte(old(mem), x)
        invariant dst + n <= src || src + n <= dst ==> Bytes(mem, dst, i) == Bytes(old(mem), src, i)
      {
        ghost var was := mem;
        mem := mem[dst + i := Byte(mem, src + i)];
        BytesSame(was, mem, dst + i, 1, dst, i);
        assert Bytes(mem, dst, i + 1) == Bytes(mem, dst, i) + [Byte(mem, dst + i)];
        assert Bytes(old(mem), src, i + 1) == Bytes(old(mem), src, i) + [Byte(old(mem), src + i)];
      }
    }

    /** Copies the bytes of the block at `p` to the block at `r`, which has room for them. */
    method CopyData(r: nat, p: nat)
      requires Valid() && r >= align && r - align in live && p >= align && p - align in live && r != p
      requires r - align in hdr && p - align in hdr && hdr[p - align].size <= hdr[r - align].size
      modifies this`mem
      ensures Valid()
      ensures Roomy(H(), align) ==> Bytes(mem, r, hdr[p - align].size) == Bytes(old(mem), p, hdr[p - align].size)
      ensures Roomy(H(), align) ==> forall a :: a in live && a != r - align && a in hdr ==>
        Bytes(mem, a + align, hdr[a].size) == Bytes(old(mem), a + align, hdr[a].size)
    {
      hide Good, Roomy, BucketOf, Bytes, Byte;
      var size := hdr[p - align].size;
      MemCpy(r, p, size);
      if Roomy(H(), align) {
        DataApart(H(), align, sizes, r - align, p - align);
        Copied(H(), align, sizes, old(mem), mem, r, size);
      }
    }

    /** Gives the block at `p` room for `nSize` bytes, in another place if need be. */
    method ReAllocate(p: nat, nSize: nat) returns (r: nat)
      requires Valid() && nSize < WORD && (p == 0 || (p >= align && p - align in live))
      modifies this`next, this`reserve, this`hdr, this`mem, this`blocks, this`free, this`live, freeList
      ensures Valid()
      ensures p != 0 ==> old(p - align in hdr)
      ensures p != 0 && nSize > 0 && nSize <= old(hdr[p - align].size) ==> r == p && H() == old(H()) && mem == old(mem)
      ensures p == 0 || nSize > old(hdr[p - align].size) ==> (r != 0 <==> old(Available(nSize)))
      ensures p != 0 && nSize == 0 ==> r == 0
      ensures r != 0 ==>
        r >= align && Aligned(r, align) && r - align in live && r - align in hdr && hdr[r - align].size >= nSize
      ensures live == (if r == 0 && nSize > 0 then old(live)
        else (old(live) - (if p == 0 then {} else {p - align})) + (if r == 0 then {} else {r - align}))
      ensures r != 0 && r != p ==> r - align !in old(live)
      ensures old(Roomy(H(), align)) && nSize + 2 * align - 1 < WORD ==>
        && Roomy(H(), align)
        && (p != 0 && r != 0 ==>
          Bytes(mem, r, old(hdr[p - align].size)) == Bytes(old(mem), p, old(hdr[p - align].size)))
        && (forall a :: a in old(live) && a in old(hdr) && (a != p - align || r == 0) ==>
              Bytes(mem, a + align, old(hdr)[a].size) == Bytes(old(mem), a + align, old(hdr)[a].size))
    {
      hide Good, Roomy, BucketOf, Aligned, Bytes, Byte, Available, FirstFor, Served, RoundDown;
      LiveKnown(H(), align, sizes);
      if p == 0 {
        r := Allocate(nSize);
        return;
      }
      if nSize == 0 {
        Free(p);
        return 0;
      }
      LiveAligned(H(), align, sizes, p - align);
      if hdr[p - align].size >= nSize {
        return p;
      }
      r := Allocate(nSize);
      if r == 0 {
        return;
      }
      CopyData(r, p);
      Free(p);
    }

    /** Hands out the first block of free list `b`. */
    method TakeFree(b: nat) returns (r: nat)
      requires Valid() && b < |sizes| && freeList[b] != 0
      modifies this`hdr, this`free, this`live, freeList
      ensures Valid() && r == old(freeList[b]) + align
      ensures |old(free)| == |sizes| && |old(free)[b]| > 0 && old(freeList[b]) in old(hdr) && H() == Reuse(old(H()), b)
      ensures old(freeList[b]) !in old(live) && old(hdr)[old(freeList[b])].size == sizes[b] && Aligned(r, align)
      ensures old(Roomy(H(), align)) <==> Roomy(H(), align)
    {
      hide Good, Roomy, RoundDown;
      ghost var h := H();
      GoodSizes(h, align, sizes);
      ReuseGood(h, align, sizes, b);
      ReuseRoomy(h, align, sizes, b);
      HeadAligned(h, align, sizes, b);
      var a := freeList[b];
      freeList[b] := hdr[a].next;
      hdr := hdr[a := hdr[a].(next := 0)];
      free, live := free[b := free[b][1..]], live + {a};
      r := a + align;
      assert H() == Reuse(h, b);
    }

    /** Puts a new block of `size` bytes at the end of the heap. */
    method Extend(size: nat) returns (r: nat)
      requires Valid() && next > 0 && size < WORD
      modifies this`next, this`reserve, this`hdr, this`blocks, this`live
      ensures Valid()
      ensures var span := SpanFor(size, align);
        if span > 0 && old(next) + span + old(reserve) <= limit then
          r == old(next) + align && Aligned(r, align) && H() == Grow(old(H()), span, size) && reserve == old(reserve)
        else r == 0 && H() == old(H()) && reserve == 0
      ensures r != 0 ==> old(next) !in old(live) && forall a :: a in old(live) ==> a != old(next)
      ensures old(Roomy(H(), align)) ==> (Roomy(H(), align) <==> r == 0 || size + 2 * align - 1 < WORD)
    {
      hide Good, Roomy, SpanFor, Aligned;
      ghost var h := H();
      var span := SpanFor(size, align);
      SpanEnough(size, align);
      var pNextBlock := (next + span) % WORD;
      NoWrap(next, span, limit - reserve);
      if pNextBlock <= next || pNextBlock > limit - reserve {
        reserve := 0;
        return 0;
      }
      GrowGood(h, align, sizes, span, size);
      GrowRoomy(h, align, sizes, span, size);
      hdr := hdr[next := Header(size, 0)];
      blocks, live := blocks + [Block(next, span)], live + {next};
      r := next + align;
      NextAligned(h, align, sizes);
      next := pNextBlock;
      assert H() == Grow(h, span, size);
    }
  }

  lemma LiveKnown(h: Heap, align: nat, sizes: seq<nat>)
    requires Good(h, align, sizes)
    ensures forall a :: a in h.live ==> a in h.hdr && a > 0
  {
  }

  lemma LiveNext(h: Heap, align: nat, sizes: seq<nat>, a: nat)
    requires Good(h, align, sizes) && a in h.live
    ensures |h.blocks| > 0
  {
    assert IsBlock(h, a);
  }

  /** The first bucket for a size is the bucket of blocks that are served from it. */
  lemma FirstIsOwn(sizes: seq<nat>, n: nat)
    requires FirstFor(sizes, n) < |sizes|
    ensures BucketOf(sizes, sizes[FirstFor(sizes, n)]) == FirstFor(sizes, n)
  {
    hide BucketOf, FirstFor;
    var b, o := FirstFor(sizes, n), BucketOf(sizes, sizes[FirstFor(sizes, n)]);
    assert n <= sizes[b] == sizes[o];
  }

  lemma LiveAligned(h: Heap, align: nat, sizes: seq<nat>, a: nat)
    requires Good(h, align, sizes) && a in h.live
    ensures Aligned(a + align, align)
  {
    MulMod(1, align);
    assert 1 * align == align;
    AlignedSum(a, align, align);
  }

  lemma SizesKept(h: Heap, h': Heap, align: nat)
    requires h'.blocks == h.blocks && forall x :: x in h.hdr ==> x in h'.hdr && h'.hdr[x].size == h.hdr[x].size
    ensures Roomy(h, align) ==> Roomy(h', align)
  {
  }

  /** The bytes of different blocks in use do not overlap. */
  lemma DataApart(h: Heap, align: nat, sizes: seq<nat>, a: nat, b: nat)
    requires Good(h, align, sizes) && Roomy(h, align) && a in h.live && b in h.live && a != b
    ensures a in h.hdr && b in h.hdr
    ensures a + align + h.hdr[a].size <= b || b + align + h.hdr[b].size <= a
  {
    hide FreeList, BucketOf;
    var i :| 0 <= i < |h.blocks| && h.blocks[i].at == a;
    var j :| 0 <= j < |h.blocks| && h.blocks[j].at == b;
    BlocksApart(h, align, i, j);
  }

  /** Copying into the block at `r` leaves the bytes of all others alone. */
  lemma Copied(h: Heap, align: nat, sizes: seq<nat>, was: map<nat, int>, mem: map<nat, int>, r: nat, n: nat)
    requires Good(h, align, sizes) && r >= align && r - align in h.live && r - align in h.hdr &&
      n <= h.hdr[r - align].size
    requires Roomy(h, align) && forall x: nat :: !(r <= x < r + n) ==> Byte(mem, x) == Byte(was, x)
    ensures forall a :: a in h.live && a != r - align && a in h.hdr ==>
      Bytes(mem, a + align, h.hdr[a].size) == Bytes(was, a + align, h.hdr[a].size)
  {
    hide Bytes, Byte, Good, Roomy;
    forall a | a in h.live && a != r - align && a in h.hdr
      ensures Bytes(mem, a + align, h.hdr[a].size) == Bytes(was, a + align, h.hdr[a].size)
    {
      DataApart(h, align, sizes, a, r - align);
      BytesSame(was, mem, r, n, a + align, h.hdr[a].size);
    }
  }

  lemma GoodSizes(h: Heap, align: nat, sizes: seq<nat>)
    requires Good(h, align, sizes)
    ensures |h.heads| == |h.free| == |sizes|
  {
  }

  /** The check for a wrapped address is as good as arithmetic without bounds. */
  lemma NoWrap(next: nat, span: nat, limit: nat)
    requires next <= limit < WORD && span < WORD
    ensures var n := (next + span) % WORD;
      if n <= next || n > limit then span == 0 || next + span > limit
      else span > 0 && next + span <= limit && n == next + span
  {
  }

  lemma HeadAligned(h: Heap, align: nat, sizes: seq<nat>, b: nat)
    requires Good(h, align, sizes) && b < |sizes| && h.heads[b] != 0
    ensures |h.free[b]| > 0 && h.heads[b] in h.hdr && h.hdr[h.heads[b]].size == sizes[b]
    ensures Aligned(h.heads[b] + align, align)
  {
    hide Start, FreeList, Reuse, SameBlocks;
    ReuseList(h, align, sizes, b);
    MulMod(1, align);
    assert 1 * align == align;
    AlignedSum(h.heads[b], align, align);
  }

  lemma NextAligned(h: Heap, align: nat, sizes: seq<nat>)
    requires Good(h, align, sizes)
    ensures Aligned(h.next + align, align)
  {
    hide FreeList, Fates, Start;
    MulMod(1, align);
    assert 1 * align == align;
    AlignedSum(h.next, align, align);
  }

  lemma ReuseRoomy(h: Heap, align: nat, sizes: seq<nat>, b: nat)
    requires Good(h, align, sizes) && b < |sizes| && h.heads[b] != 0
    ensures |h.free[b]| > 0 && h.heads[b] in h.hdr
    ensures Roomy(h, align) <==> Roomy(Reuse(h, b), align)
  {
    hide Start, BucketOf, FreeList;
    ReuseList(h, align, sizes, b);
  }

  lemma GrowRoomy(h: Heap, align: nat, sizes: seq<nat>, span: nat, size: nat)
    requires Good(h, align, sizes) && h.next > 0
    ensures Roomy(h, align) ==> (Roomy(Grow(h, span, size), align) <==> span >= align + size)
  {
    hide FreeList, BucketOf;
    var h', n := Grow(h, span, size), |h.blocks|;
    forall i | 0 <= i < n ensures h.blocks[i].at < h.next && h'.blocks[i] == h.blocks[i] { StartsRise(h, align, i, n); }
    assert h'.blocks[n] == Block(h.next, span);
  }

  lemma EmptyLists(h: Heap, sizes: seq<nat>)
    requires |h.heads| == |h.free| == |sizes| && h.blocks == []
    requires forall b {:trigger FreeList(h, sizes, b)} :: 0 <= b < |sizes| ==> FreeList(h, sizes, b)
    ensures forall b :: 0 <= b < |sizes| ==> h.free[b] == []
  {
    forall b | 0 <= b < |sizes| ensures h.free[b] == [] {
      assert FreeList(h, sizes, b);
      assert |h.free[b]| > 0 ==> IsBlock(h, h.free[b][0]);
    }
  }
}
