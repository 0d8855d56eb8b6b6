/** The user heap's allocator: first fit, blocks cut from the end, two-sided joining on free. */
module UserHeap {
  import opened Words
  import opened HeapLayout

  /** An unsigned 32-bit result. */
  function AsUnsigned(x: int): Word {
    x % 0x1_0000_0000
  }

  lemma SignedDifference(x: int)
    requires -0x8000_0000 <= x < 0x8000_0000
    ensures AsSigned(AsUnsigned(x)) == x
  {
  }

  /** Bytes taken from the heap by a request: the fewest whole words that hold it, at least two, and the size word. */
  function Need(size: nat): (n: nat)
    ensures n % 4 == 0 && n >= 12 && n >= size + 4 && (n == 12 || n < size + 8)
  {
    (if size <= MIN_ALLOC_SIZE then MIN_ALLOC_SIZE else (size + 3) / 4 * 4) + SIZE_T
  }

  function Product(n: nat, size: nat): nat {
    n * size
  }

  /** One element more is size bytes more. */
  lemma ProductCounts(n: nat, size: nat)
    ensures Product(0, size) == 0 && Product(n + 1, size) == Product(n, size) + size
  {
  }

  ghost predicate Fits(b: Blocks, f: nat, need: nat) {
    FreeAt(b, f) && need <= b[f].size
  }

  ghost predicate NoneFits(b: Blocks, need: nat) {
    forall c: nat {:trigger b[c]} :: c in b && b[c].free ==> b[c].size < need
  }

  /** No free block up to offset p is large enough. */
  ghost predicate AllSmall(b: Blocks, p: int, need: nat) {
    forall c: nat {:trigger b[c]} :: c in b && b[c].free && c <= p ==> b[c].size < need
  }

  ghost predicate FirstFit(b: Blocks, f: nat, need: nat) {
    Fits(b, f, need) && AllSmall(b, f - 1, need)
  }

  /** What a request takes: the end of a block that leaves at least 12 bytes, otherwise the whole block. */
  function Place(b: Blocks, f: nat, need: nat): nat
    requires f in b && need <= b[f].size
  {
    if b[f].size - need >= MIN_ALLOC_SIZE + SIZE_T then f + (b[f].size - need) else f
  }

  function Granted(b: Blocks, f: nat, need: nat): Blocks
    requires f in b && need <= b[f].size
  {
    if b[f].size - need >= MIN_ALLOC_SIZE + SIZE_T then
      b[f := Blk(b[f].size - need, true)][f + (b[f].size - need) := Blk(need, false)]
    else b[f := Blk(b[f].size, false)]
  }

  /** malloc as a change of state: p is the pointer returned. */
  ghost predicate Allocated(s: State, s': State, size: nat, p: int) {
    && Untouched(s, s', -1)
    && (p == 0 ==> s' == s && (size == 0 || NoneFits(s.b, Need(size))))
    && (p != 0 ==> size > 0 && exists f: nat :: AllocatedAt(s, s', f, Need(size), p))
  }

  ghost predicate AllocatedAt(s: State, s': State, f: nat, need: nat, p: int) {
    FirstFit(s.b, f, need) && p == s.base + Place(s.b, f, need) + SIZE_T && s'.b == Granted(s.b, f, need)
  }

  /** The block a pointer stands for. */
  function BlockOf(base: nat, p: int): int {
    p - SIZE_T - base
  }

  /** p is a pointer malloc gave out and that was not freed since. */
  ghost predicate Allocation(s: State, p: int) {
    BlockOf(s.base, p) >= 0 && LiveAt(s.b, BlockOf(s.base, p))
  }

  /** Byte k of an allocation. */
  function PayloadByte(s: State, p: int, k: nat): Byte {
    var x := p - s.base + k;
    if 0 <= x < |s.m| then s.m[x] else 0
  }

  lemma NothingMoved(s: State)
    requires Tiled(s.b, |s.m|)
    ensures Untouched(s, s, -1)
  {
    NothingStored(s.b, s.m, 0);
    forall c: nat | c in s.b
      ensures Same(s.m, s.m, c, c + s.b[c].size)
    {
      BlockSize(s.b, |s.m|, c);
    }
  }

  lemma FromHead(s: State)
    requires HeapOk(s)
    ensures LinkedFrom(s, -1, s.head)
  {
    hide Next; hide NextIs; hide Tiled;
  }

  /** The block a non-NULL link leads to. */
  lemma FollowLink(s: State, prev: int, block: Word)
    requires HeapOk(s) && LinkedFrom(s, prev, block) && block != 0
    ensures block > s.base - 1 && FreeAt(s.b, block - s.base) && prev < block - s.base
    ensures s.b[block - s.base].size >= 8 && block - s.base + s.b[block - s.base].size <= |s.m| < 0x8000_0000
    ensures LoadWord(s.m, block - s.base) == s.b[block - s.base].size
    ensures LinkedFrom(s, block - s.base, LoadWord(s.m, block - s.base + 4))
  {
    hide Tiled; hide Apart; hide LoadWord;
    BlockSize(s.b, |s.m|, block - s.base);
    assert NextIs(s.b, s.base, block - s.base, Next(s.m, block - s.base));
  }

  lemma FitsFirst(s: State, prev: int, f: nat, need: nat)
    requires HeapOk(s) && LinkedFrom(s, prev, s.base + f) && Fits(s.b, f, need)
    requires AllSmall(s.b, prev, need)
    ensures FirstFit(s.b, f, need)
  {
  }

  lemma NoneBetween(s: State, prev: int, f: nat, need: nat)
    requires HeapOk(s) && LinkedFrom(s, prev, s.base + f) && FreeAt(s.b, f) && s.b[f].size < need
    requires AllSmall(s.b, prev, need)
    ensures AllSmall(s.b, f, need)
  {
  }

  lemma NoneLeft(s: State, prev: int, need: nat)
    requires LinkedFrom(s, prev, 0)
    requires AllSmall(s.b, prev, need)
    ensures NoneFits(s.b, need)
  {
  }

  /** Block a over and done with: every other allocation stays, and no other appears. */
  ghost predicate Released(b: Blocks, b': Blocks, a: int) {
    && (forall c: nat {:trigger b[c]} :: c in b && !b[c].free && c != a ==> c in b' && b'[c] == b[c])
    && (forall c: nat {:trigger b'[c]} :: c in b' && !b'[c].free ==> c != a && c in b && b[c] == b'[c])
  }

  lemma LinkAhead(s: State, p: nat, a: nat)
    requires FreeAt(s.b, p) && LinkedFrom(s, p, s.base + a) && s.base > 0
    ensures p < a && Next(s.m, p) == s.base + a
  {
    hide Next;
  }

  lemma LinkTarget(s: State, a: nat)
    requires HeapBut(s, {a}) && FreeAt(s.b, a) && Next(s.m, a) != 0
    ensures s.base + a < Next(s.m, a) && FreeAt(s.b, Next(s.m, a) - s.base)
  {
    hide Next; hide Tiled; hide Apart; hide Stored;
    assert NextIs(s.b, s.base, a, Next(s.m, a));
  }

  lemma Ahead(s: State, prev: int, a: nat, cur: Word)
    requires HeapOk(s) && LinkedFrom(s, prev, cur) && LiveAt(s.b, a) && (cur == 0 || s.base + a < cur)
    ensures cur == 0 || a < cur - s.base
  {
  }

  lemma ReleasedBySteps(s: State, s1: State, s2: State, s3: State, a: nat)
    requires LiveAt(s.b, a) && s1.b == s.b[a := Blk(s.b[a].size, true)]
    requires Untouched(s, s1, a) && Untouched(s1, s2, -1) && Untouched(s2, s3, -1)
    requires SameLive(s1.b, s2.b) && SameLive(s2.b, s3.b)
    ensures Untouched(s, s3, a) && Released(s.b, s3.b, a)
  {
    forall c: nat | c in s.b && !s.b[c].free && c != a
      ensures c in s3.b && s3.b[c] == s.b[c] && Same(s.m, s3.m, c, c + s.b[c].size)
    {
      assert s1.b[c] == s.b[c] && s2.b[c] == s.b[c];
    }
  }

  /** The first bytes at r in s' are those at p in s, up to the end of p's block of the given size. */
  ghost predicate PrefixKept(s: State, s': State, p: int, size: nat, r: int, blockSize: nat) {
    forall k: nat :: k < size && k < blockSize - SIZE_T ==> PayloadByte(s', r, k) == PayloadByte(s, p, k)
  }

  /** realloc as a change of state: p is the old pointer, r the pointer returned. */
  ghost predicate Reallocated(s: State, s': State, p: int, size: nat, r: int) {
    if p == 0 then Allocated(s, s', size, r)
    else if size == 0 then r == 0 && Untouched(s, s', BlockOf(s.base, p)) && Released(s.b, s'.b, BlockOf(s.base, p))
    else if r == 0 then s' == s && NoneFits(s.b, Need(size))
    else
      && Moved(s, s', p, size, r)
      && Allocation(s', r) && BlockOf(s.base, p) >= 0 && BlockOf(s.base, p) in s.b
      && PrefixKept(s, s', p, size, r, s.b[BlockOf(s.base, p)].size)
  }

  /** As malloc of size bytes followed by free of p. */
  ghost predicate Moved(s: State, s': State, p: int, size: nat, r: int) {
    && Untouched(s, s', BlockOf(s.base, p))
    && exists f: nat :: MovedTo(s, s', f, p, Need(size), r)
  }

  ghost predicate MovedTo(s: State, s': State, f: nat, p: int, need: nat, r: int) {
    && FirstFit(s.b, f, need) && r == s.base + Place(s.b, f, need) + SIZE_T
    && Released(Granted(s.b, f, need), s'.b, BlockOf(s.base, p))
  }

  /** The block malloc made: new, and large enough for the request. */
  lemma NewBlock(s: State, s1: State, size: nat, p: int) returns (a: nat)
    requires HeapOk(s) && HeapOk(s1) && Allocated(s, s1, size, p) && p != 0 && s1.base == s.base && |s1.m| == |s.m|
    ensures p == s.base + a + SIZE_T && LiveAt(s1.b, a) && !LiveAt(s.b, a)
    ensures s1.b[a].size >= size + SIZE_T && s1.b[a].size >= MIN_ALLOC_SIZE + SIZE_T
    ensures a + s1.b[a].size <= |s1.m| && a % 4 == 0
    ensures exists f: nat :: AllocatedAt(s, s1, f, Need(size), p)
  {
    hide HeapBut;
    var f: nat :| AllocatedAt(s, s1, f, Need(size), p);
    a := Place(s.b, f, Need(size));
    NewBlockSize(s, s1, f, Need(size), a);
  }

  lemma NewBlockSize(s: State, s1: State, f: nat, need: nat, a: nat)
    requires HeapOk(s) && HeapOk(s1) && Fits(s.b, f, need) && a == Place(s.b, f, need) && s1.b == Granted(s.b, f, need)
             && need > 0
    ensures LiveAt(s1.b, a) && !LiveAt(s.b, a) && s1.b[a].size >= need && a + s1.b[a].size <= |s1.m| && a % 4 == 0
  {
    hide Linked; hide Stored; hide Apart;
    BlockSize(s1.b, |s1.m|, a);
    if a != f {
      BlockInside(s.b, |s.m|, f, a);
    }
  }

  /** The bytes of s' differ from those of s at most in the payload of block a. */
  ghost predicate SameOutside(s: State, s': State, a: nat) {
    && a in s.b && s'.base == s.base && s'.head == s.head && s'.b == s.b && |s'.m| == |s.m|
    && forall x: nat :: x < |s.m| && !(a + SIZE_T <= x < a + s.b[a].size) ==> s'.m[x] == s.m[x]
  }

  /** n bytes from dst on are zero in m', and the others are those of m. */
  ghost predicate ZeroedAt(m: Bytes, m': Bytes, dst: nat, n: nat) {
    && |m'| == |m| && dst + n <= |m|
    && (forall x :: dst <= x < dst + n ==> m'[x] == 0)
    && (forall x :: 0 <= x < |m| && !(dst <= x < dst + n) ==> m'[x] == m[x])
  }

  /** n bytes were copied from src to dst; a byte that was itself overwritten may arrive changed. */
  ghost predicate CopiedTo(m: Bytes, m': Bytes, dst: nat, src: nat, n: nat) {
    && |m'| == |m| && dst + n <= |m| && src + n <= |m|
    && (forall x :: dst <= x < dst + n && !(dst <= x - dst + src < dst + n) ==> m'[x] == m[x - dst + src])
    && (forall x :: 0 <= x < |m| && !(dst <= x < dst + n) ==> m'[x] == m[x])
  }

  ghost predicate ZeroPayload(s: State, p: int, n: nat) {
    forall k: nat :: k < n ==> PayloadByte(s, p, k) == 0
  }

  lemma ZeroedPayload(m: Bytes, s: State, p: int, n: nat)
    requires p >= s.base && ZeroedAt(m, s.m, p - s.base, n)
    ensures ZeroPayload(s, p, n)
  {
  }

  /** Writing the payload of an allocation disturbs neither the heap nor other allocations. */
  lemma PayloadOnly(s: State, s': State, a: nat)
    requires HeapOk(s) && LiveAt(s.b, a) && SameOutside(s, s', a)
    ensures HeapOk(s') && Untouched(s, s', a)
  {
    hide NextIs; hide Apart; hide Size; hide Next;
    forall c: nat | c in s.b
      ensures Size(s'.m, c) == s.b[c].size && (c != a ==> Kept(s.m, s'.m, c, s.b[c].size))
    {
      PayloadElsewhere(s, s', a, c);
    }
  }

  lemma PayloadElsewhere(s: State, s': State, a: nat, c: nat)
    requires HeapOk(s) && LiveAt(s.b, a) && SameOutside(s, s', a) && c in s.b
    ensures Size(s'.m, c) == s.b[c].size && (c != a ==> Kept(s.m, s'.m, c, s.b[c].size))
  {
    hide NextIs; hide Apart; hide Linked;
    BlockSize(s.b, |s.m|, c);
    BlockSize(s.b, |s.m|, a);
    assert c < a ==> c + s.b[c].size <= a;
    assert a < c ==> a + s.b[a].size <= c;
  }

  lemma StillAllocated(s: State, s1: State, s2: State, size: nat, p: int, a: nat)
    requires Allocated(s, s1, size, p) && p != 0 && Untouched(s1, s2, a) && s2.b == s1.b && !LiveAt(s.b, a)
    ensures Allocated(s, s2, size, p)
  {
    var f: nat :| AllocatedAt(s, s1, f, Need(size), p);
    assert AllocatedAt(s, s2, f, Need(size), p);
    UntouchedTwice(s, s1, s2, a);
  }

  lemma UntouchedTwice(s: State, s1: State, s2: State, a: nat)
    requires Untouched(s, s1, -1) && Untouched(s1, s2, a) && !LiveAt(s.b, a)
    ensures Untouched(s, s2, -1)
  {
    forall c: nat | c in s.b && !s.b[c].free
      ensures c in s2.b && s2.b[c] == s.b[c] && Same(s.m, s2.m, c, c + s.b[c].size)
    {
      assert s1.b[c] == s.b[c];
    }
  }

  lemma StaysAllocated(s: State, s1: State, p: int)
    requires Untouched(s, s1, -1) && Allocation(s, p) && s1.base == s.base
    ensures Allocation(s1, p) && s1.b[BlockOf(s.base, p)] == s.b[BlockOf(s.base, p)]
  {
  }

  /** The copied bytes are those of the old allocation. */
  lemma CopiedPayload(s: State, s1: State, s2: State, p: int, size: nat, r: int, a: nat)
    requires HeapOk(s1) && Allocation(s, p) && Untouched(s, s1, -1) && s1.base == s.base && |s1.m| == |s.m| == |s2.m|
    requires LiveAt(s1.b, a) && !LiveAt(s.b, a) && r == s.base + a + SIZE_T && s1.b[a].size >= size + SIZE_T
    requires s2.base == s.base && a + s1.b[a].size <= |s1.m| && p > s.base
    requires CopiedTo(s1.m, s2.m, r - s.base, p - s.base, size)
    ensures BlockOf(s.base, p) in s.b
    ensures PrefixKept(s, s2, p, size, r, s.b[BlockOf(s.base, p)].size)
  {
    hide Linked; hide Apart; hide Stored;
    var o: nat := BlockOf(s.base, p);
    assert s1.b[o] == s.b[o];
    BlockSize(s1.b, |s1.m|, o);
    assert o < a ==> o + s1.b[o].size <= a;
    assert a < o ==> a + s1.b[a].size <= o;
    forall k: nat | k < size && k < s.b[o].size - SIZE_T
      ensures PayloadByte(s2, r, k) == PayloadByte(s, p, k)
    {
      assert s2.m[r - s.base + k] == s1.m[p - s.base + k];
      assert s1.m[p - s.base + k] == s.m[p - s.base + k];
    }
  }

  lemma ThenUntouched(s: State, s2: State, s3: State, o: nat)
    requires Untouched(s, s2, -1) && Untouched(s2, s3, o)
    ensures Untouched(s, s3, o)
  {
    forall c: nat | c in s.b && !s.b[c].free && c != o
      ensures c in s3.b && s3.b[c] == s.b[c] && Same(s.m, s3.m, c, c + s.b[c].size)
    {
      assert s2.b[c] == s.b[c];
    }
  }

  lemma PrefixStillKept(s: State, s2: State, s3: State, p: int, size: nat, r: int, a: nat, blockSize: nat)
    requires PrefixKept(s, s2, p, size, r, blockSize) && s3.base == s2.base && |s3.m| == |s2.m|
    requires r == s2.base + a + SIZE_T && LiveAt(s2.b, a) && a + s2.b[a].size <= |s2.m| && s2.b[a].size >= size + SIZE_T
    requires Same(s2.m, s3.m, a, a + s2.b[a].size)
    ensures PrefixKept(s, s3, p, size, r, blockSize)
  {
    forall k: nat | k < size && k < blockSize - SIZE_T
      ensures PayloadByte(s3, r, k) == PayloadByte(s, p, k)
    {
      assert PayloadByte(s2, r, k) == PayloadByte(s, p, k);
    }
  }

  lemma MovedAllocation(s: State, s2: State, s3: State, p: int, size: nat, r: int, a: nat)
    requires Allocation(s, p) && Allocated(s, s2, size, r) && r != 0 && size > 0
    requires s2.base == s.base == s3.base && |s3.m| == |s2.m|
    requires r == s.base + a + SIZE_T && LiveAt(s2.b, a) && !LiveAt(s.b, a)
    requires s2.b[a].size >= size + SIZE_T && a + s2.b[a].size <= |s2.m|
    requires PrefixKept(s, s2, p, size, r, s.b[BlockOf(s.base, p)].size)
    requires Untouched(s2, s3, BlockOf(s.base, p)) && Released(s2.b, s3.b, BlockOf(s.base, p))
    ensures Reallocated(s, s3, p, size, r)
  {
    hide Granted; hide Place; hide FirstFit; hide NoneFits; hide PrefixKept; hide Need;
    var o: nat := BlockOf(s.base, p);
    var f: nat :| AllocatedAt(s, s2, f, Need(size), r);
    assert MovedTo(s, s3, f, p, Need(size), r);
    ThenUntouched(s, s2, s3, o);
    PrefixStillKept(s, s2, s3, p, size, r, a, s.b[o].size);
  }

  // ---------------------------------------------------------------- histories

  /** free has one possible outcome: the blocks left do not depend on how the list was walked or joined. */
  lemma FreeIsDetermined(b: Blocks, b1: Blocks, b2: Blocks, len: nat, a: nat)
    requires Released(b, b1, a) && Released(b, b2, a)
    requires Tiled(b1, len) && Tiled(b2, len) && Apart(b1, {}) && Apart(b2, {})
    ensures b1 == b2
  {
    Canonical(b1, b2, len);
  }

  /** Freeing what malloc has just returned restores every block of the heap. */
  lemma FreeUndoesMalloc(s: State, s1: State, s2: State, size: nat, p: int)
    requires HeapOk(s) && HeapOk(s1) && HeapOk(s2) && |s.m| == |s1.m| == |s2.m| && s.base == s1.base
    requires p != 0 && Allocated(s, s1, size, p) && Released(s1.b, s2.b, BlockOf(s.base, p))
    ensures s2.b == s.b
  {
    hide Linked; hide Stored; hide Tiled; hide Apart;
    var a := NewBlock(s, s1, size, p);
    var f: nat :| AllocatedAt(s, s1, f, Need(size), p);
    Canonical(s2.b, s.b, |s.m|);
  }

  /** m is the least multiple of 4 that is at least size and at least 8. */
  ghost predicate Rounded(size: nat, m: nat) {
    m % 4 == 0 && m >= size && m >= 8 && forall k: nat :: k % 4 == 0 && k >= size && k >= 8 ==> m <= k
  }

  lemma RoundedNeed(size: nat, m: nat)
    requires Rounded(size, m)
    ensures Need(size) == m + 4
  {
    var k := Need(size) - 4;
    assert k % 4 == 0 && k >= size && k >= 8;
  }

  /**
   malloc answers NULL exactly for size 0 or if every free block is smaller than the request, rounded, and its
   size word.
  */
  lemma MallocFailsExactly(s: State, s1: State, size: nat, p: int, m: nat)
    requires HeapOk(s) && Allocated(s, s1, size, p) && s.base > 0 && Rounded(size, m)
    ensures p == 0 <==> size == 0 || forall c: nat {:trigger s.b[c]} :: c in s.b && s.b[c].free ==> s.b[c].size < m + 4
  {
    hide Linked; hide Stored; hide Tiled; hide Apart; hide Rounded;
    RoundedNeed(size, m);
    if p != 0 {
      var f: nat :| AllocatedAt(s, s1, f, Need(size), p);
      assert s.b[f].size >= Need(size);
    }
  }

  /**
   Otherwise it takes just these m + 4 bytes, off the end of the first free block that has them, or the whole of
   that block if less than 12 bytes would be left of it.
  */
  lemma MallocTakesExactly(s: State, s1: State, size: nat, p: int, m: nat) returns (f: nat)
    requires HeapOk(s) && Allocated(s, s1, size, p) && p != 0 && Rounded(size, m)
    ensures TakenFrom(s.b, s1.b, f, p - s.base - 4, m)
  {
    hide Linked; hide Stored; hide Tiled; hide Apart; hide Rounded;
    RoundedNeed(size, m);
    f :| AllocatedAt(s, s1, f, Need(size), p);
  }

  /** Block a of m + 4 bytes or somewhat more was taken from f, the first free block that is large enough. */
  ghost predicate TakenFrom(b: Blocks, b': Blocks, f: nat, a: int, m: nat) {
    && f in b && b[f].free && b[f].size >= m + 4
    && (forall c: nat {:trigger b[c]} :: c in b && b[c].free && c < f ==> b[c].size < m + 4)
    && (if b[f].size - (m + 4) >= 12
        then a == f + b[f].size - (m + 4)
             && b' == b[f := Blk(b[f].size - (m + 4), true)][a as nat := Blk(m + 4, false)]
        else a == f && b' == b[f := Blk(b[f].size, false)])
  }

  class Heap {
    const bytes: array<Byte>
    const base: nat
    var freeList: Word
    ghost var blocks: Blocks

    ghost function St(): State
      reads this, bytes
    {
      State(bytes[..], base, freeList, blocks)
    }

    ghost predicate Valid()
      reads this, bytes
    {
      HeapOk(St())
    }

    method LoadW(a: nat) returns (w: Word)
      requires a + 4 <= bytes.Length
      ensures w == LoadWord(bytes[..], a)
    {
      var b0: int, b1: int, b2: int, b3: int := bytes[a], bytes[a + 1], bytes[a + 2], bytes[a + 3];
      w := b0 * 0x100_0000 + b1 * 0x1_0000 + b2 * 0x100 + b3;
    }

    method StoreW(a: nat, w: Word)
      requires a + 4 <= bytes.Length
      modifies bytes
      ensures bytes[..] == StoreWord(old(bytes[..]), a, w)
    {
      bytes[a] := ByteOf(w, 0);
      bytes[a + 1] := ByteOf(w, 1);
      bytes[a + 2] := ByteOf(w, 2);
      bytes[a + 3] := ByteOf(w, 3);
    }

    /** The whole heap becomes one free block. */
    constructor HeapInit(heap: array<Byte>, address: nat)
      requires 8 <= heap.Length < 0x8000_0000 && heap.Length % 4 == 0
      requires 0 < address && address % 4 == 0 && address + heap.Length < 0x1_0000_0000
      modifies heap
      ensures bytes == heap && base == address && Valid()
      ensures blocks == map[0 := Blk(heap.Length, true)]
    {
      bytes, base, freeList := heap, address, address;
      blocks := map[0 := Blk(heap.Length, true)];
      new;
      StoreW(0, bytes.Length);
      ghost var m := bytes[..];
      StoreW(4, 0);
      HeaderStore(m, 0, 0, 0);
      HeaderStore(old(heap[..]), 0, heap.Length, 0);
      assert BlockOk(blocks, |bytes[..]|, 0);
    }

    /** Allocates the end of free block f. */
    method CutBlock(f: nat, need: nat) returns (ptr: Word)
      requires Valid() && FreeAt(blocks, f) && blocks[f].size - need >= 12 && need >= 12 && need % 4 == 0
      modifies this, bytes
      ensures Valid() && Untouched(old(St()), St(), -1)
      ensures blocks == Granted(old(blocks), f, need) && ptr == base + Place(old(blocks), f, need) + SIZE_T
    {
      hide Tiled; hide Linked; hide Apart; hide StoreWord; hide LoadWord;
      ghost var s := St();
      BlockSize(blocks, |bytes[..]|, f);
      CutOk(s, f, need);
      var size := LoadW(f);
      StoreW(f, size - need);
      StoreW(f + (size - need), need);
      blocks := blocks[f := Blk(size - need, true)][f + (size - need) := Blk(need, false)];
      assert St() == Cut(s, f, need);
      ptr := base + f + (size - need) + SIZE_T;
    }

    /** Allocates free block f whole; the link at prev led to it. */
    method TakeBlock(prev: int, f: nat, ghost need: nat) returns (ptr: Word)
      requires Valid() && FreeAt(blocks, f) && LinkedFrom(St(), prev, base + f) && need <= blocks[f].size < need + 12
      modifies this, bytes
      ensures Valid() && Untouched(old(St()), St(), -1)
      ensures blocks == Granted(old(blocks), f, need) && ptr == base + Place(old(blocks), f, need) + SIZE_T
    {
      hide Tiled; hide Linked; hide Apart; hide StoreWord; hide LoadWord;
      ghost var s := St();
      BlockSize(blocks, |bytes[..]|, f);
      TakenOk(s, prev, f);
      var next := LoadW(f + 4);
      if prev < 0 {
        freeList := next;
      } else {
        StoreW(prev + 4, next);
      }
      blocks := blocks[f := Blk(blocks[f].size, false)];
      assert St() == Taken(s, prev, f);
      ptr := base + f + SIZE_T;
    }

    /** Allocates from free block f if it is large enough; otherwise NULL, and nothing changes. */
    method TryBlock(prev: int, f: nat, n: Word) returns (ptr: Word)
      requires Valid() && FreeAt(blocks, f) && LinkedFrom(St(), prev, base + f)
      requires 8 <= n <= 0x7fff_fff0 && n % 4 == 0
      modifies this, bytes
      ensures Valid() && Untouched(old(St()), St(), -1)
      ensures ptr == 0 <==> old(blocks[f].size) < n + SIZE_T
      ensures ptr == 0 ==> St() == old(St())
      ensures ptr != 0 ==> blocks == Granted(old(blocks), f, n + SIZE_T)
      ensures ptr != 0 ==> ptr == base + Place(old(blocks), f, n + SIZE_T) + SIZE_T
    {
      hide Tiled; hide Linked; hide Apart; hide StoreWord; hide LoadWord; hide NextIs;
      NothingMoved(St());
      BlockSize(blocks, |bytes[..]|, f);
      var blockSize := LoadW(f);
      SignedDifference(blockSize - n - SIZE_T);
      if AsSigned(AsUnsigned(blockSize - n - SIZE_T)) >= MIN_ALLOC_SIZE + SIZE_T {
        ptr := CutBlock(f, n + SIZE_T);
      } else if blockSize >= n + SIZE_T {
        ptr := TakeBlock(prev, f, n + SIZE_T);
      } else {
        ptr := 0;
      }
    }

    /** Allocates at least size bytes from the first block large enough. */
    method Malloc(size: Word) returns (ptr: Word)
      requires Valid() && size <= 0x7fff_fff0
      modifies this, bytes
      ensures Valid() && Allocated(old(St()), St(), size, ptr)
    {
      hide Tiled; hide Linked; hide Apart; hide StoreWord; hide LoadWord; hide NextIs;
      NothingMoved(St());
      if size == 0 {
        return 0;
      }
      var n: Word := if size > MIN_ALLOC_SIZE then size else MIN_ALLOC_SIZE;
      if n % 4 != 0 {
        n := n - n % 4;
        n := n + 4;
      }
      ghost var need := Need(size);
      assert need == n + SIZE_T && need % 4 == 0;
      var block, prev: int := freeList, -1;
      FromHead(St());
      while block != 0
        invariant Valid() && St() == old(St()) && LinkedFrom(St(), prev, block)
        invariant AllSmall(blocks, prev, need)
        decreases bytes.Length - prev
      {
        FollowLink(St(), prev, block);
        var f: nat := block - base;
        ptr := TryBlock(prev, f, n);
        if ptr != 0 {
          FitsFirst(old(St()), prev, f, need);
          assert AllocatedAt(old(St()), St(), f, need, ptr);
          return;
        }
        NoneBetween(St(), prev, f, need);
        prev := f;
        block := LoadW(f + 4);
      }
      NoneLeft(St(), prev, need);
      return 0;
    }

    /** Free block a takes over the free block that follows it; next is that block's link. */
    method JoinNext(a: nat, next: Word, ghost ex: set<nat>)
      requires HeapBut(St(), ex) && FreeAt(blocks, a) && FreeAt(blocks, a + blocks[a].size)
      requires next == Next(bytes[..], a + blocks[a].size)
      modifies this`blocks, bytes
      ensures HeapBut(St(), StillTouching(ex, a, old(a + blocks[a].size)))
      ensures Untouched(old(St()), St(), -1) && SameLive(old(blocks), blocks)
      ensures blocks == old(Merged(blocks, a))
      ensures Next(bytes[..], a) == next
    {
      hide Tiled; hide Linked; hide Apart; hide StoreWord; hide LoadWord;
      ghost var s := St();
      ghost var c := a + blocks[a].size;
      BlockSize(blocks, |bytes[..]|, a);
      BlockSize(blocks, |bytes[..]|, c);
      JoinedOk(s, ex, a);
      JoinedStores(s, a);
      var size := LoadW(a);
      var more := LoadW(a + size);
      StoreW(a, size + more);
      StoreW(a + 4, next);
      blocks := Merged(blocks, a);
      assert St() == Joined(s, a);
    }

    /** Links block a into the free list between prev (-1: the list head) and pointer cur. */
    method Insert(prev: int, a: nat, cur: Word)
      requires Valid() && LiveAt(blocks, a) && LinkedFrom(St(), prev, cur) && prev < a && (cur == 0 || a < cur - base)
      modifies this, bytes
      ensures HeapBut(St(), Touching(prev, a)) && Untouched(old(St()), St(), a)
      ensures blocks == old(blocks)[a := Blk(old(blocks)[a].size, true)]
      ensures LinkedFrom(St(), a, cur) && LinkedFrom(St(), prev, base + a)
    {
      hide Tiled; hide Linked; hide Apart; hide StoreWord; hide LoadWord; hide NextIs;
      ghost var s := St();
      InsertedOk(s, prev, a, cur);
      if prev < 0 {
        freeList := base + a;
      } else {
        StoreW(prev + 4, base + a);
      }
      StoreW(a + 4, cur);
      blocks := blocks[a := Blk(blocks[a].size, true)];
      assert St() == Inserted(s, prev, a, cur);
    }

    /** Joins the just inserted block a with prev if they touch; the block that now holds a. */
    method JoinPrevious(prev: int, a: nat, cur: Word) returns (block: nat)
      requires HeapBut(St(), Touching(prev, a)) && FreeAt(blocks, a)
      requires LinkedFrom(St(), a, cur) && LinkedFrom(St(), prev, base + a)
      modifies this`blocks, bytes
      ensures HeapBut(St(), {block}) && FreeAt(blocks, block) && Next(bytes[..], block) == cur
      ensures Untouched(old(St()), St(), -1) && SameLive(old(blocks), blocks)
    {
      hide Tiled; hide Linked; hide Apart; hide StoreWord; hide LoadWord; hide NextIs;
      NothingMoved(St());
      block := a;
      if prev >= 0 {
        BlockSize(blocks, |bytes[..]|, prev);
        LinkAhead(St(), prev, a);
        var size := LoadW(prev);
        if a - prev == size {
          JoinNext(prev, cur, Touching(prev, a));
          assert StillTouching(Touching(prev, a), prev, a) == {prev};
          block := prev;
        } else {
          NotTouching(St(), Touching(prev, a), prev);
          assert Touching(prev, a) - {prev} == {a};
        }
      }
    }

    /** Joins free block a with the block it links to if they touch. */
    method JoinFollowing(a: nat, cur: Word)
      requires HeapBut(St(), {a}) && FreeAt(blocks, a) && Next(bytes[..], a) == cur
      modifies this`blocks, bytes
      ensures Valid() && Untouched(old(St()), St(), -1) && SameLive(old(blocks), blocks)
    {
      hide Tiled; hide Linked; hide Apart; hide StoreWord; hide LoadWord; hide NextIs;
      NothingMoved(St());
      BlockSize(blocks, |bytes[..]|, a);
      if cur != 0 {
        LinkTarget(St(), a);
        BlockSize(blocks, |bytes[..]|, cur - base);
        var size := LoadW(a);
        if cur - (base + a) == size {
          var next := LoadW(cur - base + 4);
          JoinNext(a, next, {a});
          assert StillTouching({a}, a, cur - base) == {};
          return;
        }
      }
      NotTouching(St(), {a}, a);
      assert {a} - {a} == {};
    }

    /** Returns an allocation to the free list and joins it with free neighbours. */
    method Free(ptr: Word)
      requires Valid() && Allocation(St(), ptr)
      modifies this, bytes
      ensures Valid() && Untouched(old(St()), St(), BlockOf(base, ptr))
      ensures Released(old(blocks), blocks, BlockOf(base, ptr))
    {
      hide Tiled; hide Linked; hide Apart; hide StoreWord; hide LoadWord; hide NextIs;
      var a: nat := ptr - SIZE_T - base;
      var cur, prev: int := freeList, -1;
      FromHead(St());
      while cur <= base + a && cur != 0
        invariant Valid() && St() == old(St()) && LinkedFrom(St(), prev, cur) && prev < a
        decreases bytes.Length - prev
      {
        FollowLink(St(), prev, cur);
        prev := cur - base;
        cur := LoadW(prev + 4);
      }
      Ahead(St(), prev, a, cur);
      Insert(prev, a, cur);
      ghost var s1 := St();
      var block := JoinPrevious(prev, a, cur);
      ghost var s2 := St();
      JoinFollowing(block, cur);
      ReleasedBySteps(old(St()), s1, s2, St(), a);
    }

    /** Sets n bytes to zero. */
    method Zero(dst: nat, n: nat)
      requires dst + n <= bytes.Length
      modifies bytes
      ensures ZeroedAt(old(bytes[..]), bytes[..], dst, n)
    {
      var i := 0;
      while i < n
        invariant 0 <= i <= n
        invariant forall x :: dst <= x < dst + i ==> bytes[x] == 0
        invariant forall x :: 0 <= x < bytes.Length && !(dst <= x < dst + n) ==> bytes[x] == old(bytes[x])
      {
        bytes[dst + i] := 0;
        i := i + 1;
      }
    }

    /** Copies n bytes upwards; bytes read from outside the target arrive unchanged. */
    method Copy(dst: nat, src: nat, n: nat)
      requires dst + n <= bytes.Length && src + n <= bytes.Length
      modifies bytes
      ensures CopiedTo(old(bytes[..]), bytes[..], dst, src, n)
    {
      var i := 0;
      ghost var m := bytes[..];
      while i < n
        invariant 0 <= i <= n
        invariant forall x :: dst <= x < dst + i && !(dst <= x - dst + src < dst + n) ==> bytes[x] == m[x - dst + src]
        invariant forall x :: 0 <= x < bytes.Length && !(dst <= x < dst + n) ==> bytes[x] == m[x]
      {
        bytes[dst + i] := bytes[src + i];
        i := i + 1;
      }
    }

    /** Allocates nmemb * size bytes and clears them. */
    method Calloc(nmemb: Word, size: Word) returns (ptr: Word)
      requires Valid() && Product(nmemb, size) <= 0x7fff_fff0
      modifies this, bytes
      ensures Valid() && Allocated(old(St()), St(), Product(nmemb, size), ptr)
      ensures ptr != 0 ==> ZeroPayload(St(), ptr, Product(nmemb, size))
    {
      hide Tiled; hide Linked; hide Apart; hide StoreWord; hide LoadWord; hide NextIs; hide Place; hide Granted;
      var n: Word := Product(nmemb, size);
      ptr := Malloc(n);
      if ptr != 0 {
        ghost var s1 := St();
        ghost var a := NewBlock(old(St()), s1, n, ptr);
        Zero(ptr - base, n);
        PayloadOnly(s1, St(), a);
        StillAllocated(old(St()), s1, St(), n, ptr, a);
        ZeroedPayload(s1.m, St(), ptr, n);
      }
    }

    /** Copies n bytes of allocation src of heap s0 to the block a that malloc has made since. */
    method MovePayload(ghost s0: State, dst: Word, src: Word, n: Word, ghost a: nat)
      requires Valid() && Allocated(s0, St(), n, dst) && Allocation(s0, src) && s0.base == base
               && |s0.m| == bytes.Length
      requires src - base + n <= bytes.Length && n > 0
      requires dst == base + a + SIZE_T && LiveAt(blocks, a) && !LiveAt(s0.b, a)
      requires blocks[a].size >= n + SIZE_T && a + blocks[a].size <= bytes.Length
      modifies bytes
      ensures Valid() && Allocated(s0, St(), n, dst) && Allocation(St(), src)
      ensures PrefixKept(s0, St(), src, n, dst, s0.b[BlockOf(base, src)].size)
    {
      hide Tiled; hide Linked; hide Apart; hide StoreWord; hide LoadWord; hide NextIs; hide Place; hide Granted;
      ghost var s1 := St();
      StaysAllocated(s0, s1, src);
      Copy(dst - base, src - base, n);
      PayloadOnly(s1, St(), a);
      StillAllocated(s0, s1, St(), n, dst, a);
      CopiedPayload(s0, s1, St(), src, n, dst, a);
    }

    /** Moves an allocation to a new block of at least size bytes. */
    method Realloc(ptr: Word, size: Word) returns (newPtr: Word)
      requires Valid() && size <= 0x7fff_fff0
      requires ptr != 0 ==> Allocation(St(), ptr) && ptr - base + size <= bytes.Length
      modifies this, bytes
      ensures Valid() && Reallocated(old(St()), St(), ptr, size, newPtr)
    {
      hide HeapOk; hide Place; hide Granted; hide NoneFits; hide PrefixKept; hide StoreWord; hide LoadWord; hide NextIs;
      if ptr == 0 {
        newPtr := Malloc(size);
        return;
      }
      if ptr != 0 && size == 0 {
        Free(ptr);
        return 0;
      }
      newPtr := Malloc(size);
      if newPtr != 0 {
        ghost var a := NewBlock(old(St()), St(), size, newPtr);
        MovePayload(old(St()), newPtr, ptr, size, a);
        ghost var s2 := St();
        Free(ptr);
        MovedAllocation(old(St()), s2, St(), ptr, size, newPtr, a);
      }
    }
  }
}
