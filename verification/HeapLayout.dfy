/**
 The user heap as bytes: blocks with a size word in front, free blocks linked through
 their second word. Definitions and one-step lemmas over the heap contents.

 An address is the heap base plus an offset; blocks are named by their offset.
*/
module HeapLayout {
  import opened Words

  const MIN_ALLOC_SIZE := 8
  const SIZE_T := 4

  type Bytes = seq<Byte>

  /** What is known of a block: its length with the size word, and whether it is free. */
  datatype Blk = Blk(size: nat, free: bool)

  /** The blocks of a heap by the offset they start at. */
  type Blocks = map<nat, Blk>

  /** A heap: its contents, where it lies, the pointer to the first free block, and its blocks. */
  datatype State = State(m: Bytes, base: nat, head: Word, b: Blocks)

  /** The contents with a word stored at a. */
  function StoreWord(m: Bytes, a: nat, w: Word): (r: Bytes)
    requires a + 4 <= |m|
    ensures |r| == |m|
  {
    m[a := ByteOf(w, 0)][a + 1 := ByteOf(w, 1)][a + 2 := ByteOf(w, 2)][a + 3 := ByteOf(w, 3)]
  }

  lemma LoadStore(m: Bytes, a: nat, w: Word, x: nat)
    requires a + 4 <= |m| && x + 4 <= |m|
    ensures x == a ==> LoadWord(StoreWord(m, a, w), x) == w
    ensures x + 4 <= a || a + 4 <= x ==> LoadWord(StoreWord(m, a, w), x) == LoadWord(m, x)
    ensures forall k :: 0 <= k < |m| && (k < a || a + 4 <= k) ==> StoreWord(m, a, w)[k] == m[k]
  {
    WordFromBytes(w);
  }

  /** The size word of the block at a; 0 where there cannot be one. */
  function Size(m: Bytes, a: nat): Word {
    if a + 4 <= |m| then LoadWord(m, a) else 0
  }

  /** The link word of the block at a. */
  function Next(m: Bytes, a: nat): Word {
    if a + 8 <= |m| then LoadWord(m, a + 4) else 0
  }

  // ---------------------------------------------------------------- the invariant

  predicate FreeAt(b: Blocks, a: nat) {
    a in b && b[a].free
  }

  predicate LiveAt(b: Blocks, a: nat) {
    a in b && !b[a].free
  }

  /** Blocks start at 0, follow one another without gap or overlap, and end at the end of the heap. */
  ghost predicate Tiled(b: Blocks, len: nat) {
    && 0 in b
    && (forall a: nat {:trigger BlockOk(b, len, a)} :: a in b ==> BlockOk(b, len, a))
    && (forall a: nat, c: nat {:trigger b[a], b[c]} :: a in b && c in b && a < c ==> a + b[a].size <= c)
  }

  ghost predicate BlockOk(b: Blocks, len: nat, a: nat)
    requires a in b
  {
    && a % 4 == 0 && b[a].size % 4 == 0 && b[a].size >= MIN_ALLOC_SIZE
    && a + b[a].size <= len
    && (a + b[a].size == len || a + b[a].size in b)
  }

  /** No free block touches the next one, except perhaps those in ex. */
  ghost predicate Apart(b: Blocks, ex: set<nat>) {
    forall a: nat, c: nat {:trigger b[a], b[c]} ::
      a in b && c in b && b[a].free && b[c].free && a < c && a !in ex ==> a + b[a].size < c
  }

  /** Link w names the first free block after offset a, or is NULL if there is none. */
  ghost predicate NextIs(b: Blocks, base: nat, a: int, w: int) {
    if w == 0 then
      forall c: nat {:trigger b[c]} :: c in b && b[c].free ==> c <= a
    else
      && base < w + 1 && w - base in b && b[w - base].free && a < w - base
      && forall c: nat {:trigger b[c]} :: c in b && b[c].free ==> c <= a || w - base <= c
  }

  /** The size words are the sizes of the blocks. */
  ghost predicate Stored(s: State) {
    forall a: nat {:trigger s.b[a]} :: a in s.b ==> Size(s.m, a) == s.b[a].size
  }

  /** The list holds the free blocks in address order. */
  ghost predicate Linked(s: State) {
    && NextIs(s.b, s.base, -1, s.head)
    && forall a: nat {:trigger Next(s.m, a)} :: a in s.b && s.b[a].free ==> NextIs(s.b, s.base, a, Next(s.m, a))
  }

  ghost predicate Sized(s: State) {
    && 8 <= |s.m| < 0x8000_0000 && |s.m| % 4 == 0
    && s.base % 4 == 0 && 0 < s.base && s.base + |s.m| < 0x1_0000_0000
  }

  /** The heap invariant, but for free blocks in ex that may touch the next one. */
  ghost predicate HeapBut(s: State, ex: set<nat>) {
    Sized(s) && Tiled(s.b, |s.m|) && Stored(s) && Linked(s) && Apart(s.b, ex)
  }

  ghost predicate HeapOk(s: State) {
    HeapBut(s, {})
  }

  /** Bytes lo..hi are the same in both heaps. */
  ghost predicate Same(m: Bytes, m': Bytes, lo: nat, hi: nat) {
    |m'| == |m| && hi <= |m| && forall k :: lo <= k < hi ==> m'[k] == m[k]
  }

  /** Every allocated block except but stays allocated and keeps all its bytes. */
  ghost predicate Untouched(s: State, s': State, but: int) {
    forall c: nat {:trigger s.b[c]} {:trigger s'.b[c]} :: c in s.b && !s.b[c].free && c != but ==>
      c in s'.b && s'.b[c] == s.b[c] && Same(s.m, s'.m, c, c + s.b[c].size)
  }

  // ---------------------------------------------------------------- what tiling means

  /** Every byte of the heap lies in a block, ... */
  lemma {:induction false} Covered(b: Blocks, len: nat, k: nat, from: nat) returns (a: nat)
    requires Tiled(b, len) && from in b && from <= k < len
    ensures a in b && a <= k < a + b[a].size
    decreases len - from
  {
    assert BlockOk(b, len, from);
    if k < from + b[from].size {
      a := from;
    } else {
      a := Covered(b, len, k, from + b[from].size);
    }
  }

  /** ... and in only one. */
  lemma CoveredOnce(b: Blocks, len: nat, k: nat, a: nat, c: nat)
    requires Tiled(b, len) && a in b && c in b
    requires a <= k < a + b[a].size && c <= k < c + b[c].size
    ensures a == c
  {
  }

  /** The two heaps have the same allocated blocks. */
  ghost predicate SameLive(b: Blocks, b': Blocks) {
    && (forall a: nat {:trigger b[a]} :: a in b && !b[a].free ==> a in b' && b'[a] == b[a])
    && (forall a: nat {:trigger b'[a]} :: a in b' && !b'[a].free ==> a in b && b[a] == b'[a])
  }

  /** A free block is as long as any block at the same place in a heap with the same allocations. */
  lemma FreeReaches(b: Blocks, b': Blocks, len: nat, a: nat)
    requires Tiled(b, len) && Tiled(b', len) && Apart(b, {}) && SameLive(b, b')
    requires FreeAt(b, a) && a in b'
    ensures b'[a].size <= b[a].size
  {
    var e := a + b[a].size;
    assert BlockOk(b, len, a) && BlockOk(b', len, a);
    if e < len {
      assert LiveAt(b, e);
      assert b'[e] == b[e];
    }
  }

  /** Free space is determined by the allocations: blocks at the same place are equal. */
  lemma SameBlock(b: Blocks, b': Blocks, len: nat, a: nat)
    requires Tiled(b, len) && Tiled(b', len) && Apart(b, {}) && Apart(b', {}) && SameLive(b, b')
    requires a in b && a in b'
    ensures b[a] == b'[a]
  {
    if b[a].free {
      assert b'[a].free;
      FreeReaches(b, b', len, a);
      FreeReaches(b', b, len, a);
    }
  }

  /** The block after a block. */
  lemma BlockAfter(b: Blocks, len: nat, a: nat, c: nat)
    requires Tiled(b, len) && a in b && c in b && a < c
    ensures b[a].size >= 8 && a + b[a].size in b && a + b[a].size <= c < len
  {
    assert BlockOk(b, len, a) && BlockOk(b, len, c);
  }

  /** Walking both heaps from 0, every block of one is a block of the other. */
  lemma {:induction false} BlockOfBoth(b: Blocks, b': Blocks, len: nat, from: nat, a: nat)
    requires Tiled(b, len) && Tiled(b', len) && Apart(b, {}) && Apart(b', {}) && SameLive(b, b')
    requires from in b && from in b' && from <= a && a in b
    ensures a in b' && b'[a] == b[a]
    decreases a - from
  {
    hide Tiled; hide Apart; hide SameLive;
    SameBlock(b, b', len, from);
    if from < a {
      BlockAfter(b, len, from, a);
      NextOfBoth(b, b', len, from, a);
      BlockOfBoth(b, b', len, from + b[from].size, a);
    }
  }

  lemma NextOfBoth(b: Blocks, b': Blocks, len: nat, from: nat, a: nat)
    requires Tiled(b, len) && Tiled(b', len) && from in b && from in b' && b[from] == b'[from] && a in b && from < a
    ensures from + b[from].size in b'
  {
    BlockAfter(b, len, from, a);
    assert BlockOk(b', len, from);
  }

  /** The heap's blocks are a function of what is allocated, whatever calls led there. */
  lemma Canonical(b: Blocks, b': Blocks, len: nat)
    requires Tiled(b, len) && Tiled(b', len) && Apart(b, {}) && Apart(b', {}) && SameLive(b, b')
    ensures b == b'
  {
    forall a | a in b
      ensures a in b' && b'[a] == b[a]
    {
      BlockOfBoth(b, b', len, 0, a);
    }
    forall a | a in b'
      ensures a in b
    {
      BlockOfBoth(b', b, len, 0, a);
    }
  }

  /** Once nothing is allocated, the heap is one free block of the full size. */
  lemma AllFreed(s: State)
    requires HeapOk(s) && forall a: nat {:trigger s.b[a]} :: a in s.b ==> s.b[a].free
    ensures s.b == map[0 := Blk(|s.m|, true)] && s.head == s.base && Size(s.m, 0) == |s.m| && Next(s.m, 0) == 0
  {
    var one: Blocks := map[0 := Blk(|s.m|, true)];
    assert BlockOk(one, |s.m|, 0);
    Canonical(s.b, one, |s.m|);
    assert NextIs(s.b, s.base, 0, Next(s.m, 0));
  }

  // ---------------------------------------------------------------- stores

  /** The block at c, of the given size, reads the same in both heaps. */
  ghost predicate Kept(m: Bytes, m': Bytes, c: nat, size: nat) {
    Size(m', c) == Size(m, c) && Next(m', c) == Next(m, c) && Same(m, m', c, c + size)
  }

  ghost predicate OthersKept(b: Blocks, m: Bytes, m': Bytes, a: nat) {
    |m'| == |m| && forall c: nat {:trigger b[c]} :: c in b && c != a ==> Kept(m, m', c, b[c].size)
  }

  /** Storing a word inside block a touches no other block. */
  lemma StoreInBlock(b: Blocks, m: Bytes, a: nat, x: nat, w: Word)
    requires Tiled(b, |m|) && a in b && a <= x && x + 4 <= a + b[a].size
    ensures x + 4 <= |m| && OthersKept(b, m, StoreWord(m, x, w), a)
  {
    hide StoreWord; hide LoadWord;
    assert BlockOk(b, |m|, a);
    forall c: nat | c in b && c != a
      ensures Kept(m, StoreWord(m, x, w), c, b[c].size)
    {
      assert BlockOk(b, |m|, c);
      LoadStore(m, x, w, c);
      LoadStore(m, x, w, c + 4);
    }
  }

  /** Two stores inside block a. */
  lemma OthersKeptTwice(b: Blocks, m: Bytes, m1: Bytes, m2: Bytes, a: nat)
    requires Tiled(b, |m|) && OthersKept(b, m, m1, a) && OthersKept(b, m1, m2, a)
    ensures OthersKept(b, m, m2, a)
  {
    hide Size; hide Next;
  }

  /** Storing the size word of a block leaves its link, and the other way round. */
  lemma HeaderStore(m: Bytes, a: nat, size: Word, next: Word)
    requires a + 8 <= |m|
    ensures Size(StoreWord(m, a, size), a) == size && Next(StoreWord(m, a, size), a) == Next(m, a)
    ensures Next(StoreWord(m, a + 4, next), a) == next && Size(StoreWord(m, a + 4, next), a) == Size(m, a)
  {
    hide StoreWord; hide LoadWord;
    LoadStore(m, a, size, a);
    LoadStore(m, a, size, a + 4);
    LoadStore(m, a + 4, next, a);
    LoadStore(m, a + 4, next, a + 4);
  }

  lemma NothingStored(b: Blocks, m: Bytes, a: nat)
    requires Tiled(b, |m|)
    ensures OthersKept(b, m, m, a)
  {
    hide Size; hide Next;
    forall c: nat | c in b
      ensures Kept(m, m, c, b[c].size)
    {
      assert BlockOk(b, |m|, c);
    }
  }

  /** Allocated blocks keep their bytes when the stores are in block a, which is free or excepted. */
  lemma KeptUntouched(s: State, s': State, a: nat, but: int)
    requires OthersKept(s.b, s.m, s'.m, a) && (a == but || !LiveAt(s.b, a))
    requires forall c: nat {:trigger s.b[c]} :: c in s.b && !s.b[c].free && c != but ==> c in s'.b && s'.b[c] == s.b[c]
    ensures Untouched(s, s', but)
  {
    hide Size; hide Next;
  }

  // ---------------------------------------------------------------- taking a whole block

  /** The heap after free block f, linked from p (-1: from the list head), is taken whole. */
  function Taken(s: State, p: int, f: nat): State
    requires f in s.b && p + 8 <= |s.m|
  {
    State(if p < 0 then s.m else StoreWord(s.m, p + 4, Next(s.m, f)), s.base,
          if p < 0 then Next(s.m, f) else s.head,
          s.b[f := Blk(s.b[f].size, false)])
  }

  /** p is the list position just before pointer w. */
  ghost predicate LinkedFrom(s: State, p: int, w: int) {
    && NextIs(s.b, s.base, p, w)
    && (p < 0 ==> p == -1 && s.head == w)
    && (p >= 0 ==> FreeAt(s.b, p) && Next(s.m, p) == w)
  }

  lemma FreeFits(b: Blocks, len: nat, p: int)
    requires Tiled(b, len) && (p >= 0 ==> p in b) && len >= 8
    ensures p + 8 <= len
  {
    if p >= 0 {
      assert BlockOk(b, len, p);
    }
  }

  lemma TakenTiled(b: Blocks, len: nat, f: nat, free: bool)
    requires Tiled(b, len) && f in b
    ensures Tiled(b[f := Blk(b[f].size, free)], len)
  {
    var b' := b[f := Blk(b[f].size, free)];
    forall a | a in b'
      ensures BlockOk(b', len, a)
    {
      assert BlockOk(b, len, a);
    }
  }

  lemma TakenLink(b: Blocks, base: nat, f: nat, after: int, w: int, fw: int)
    requires FreeAt(b, f) && base > 0
    requires NextIs(b, base, after, w) && NextIs(b, base, f, fw)
    ensures w == base + f ==> NextIs(b[f := Blk(b[f].size, false)], base, after, fw)
    ensures w != base + f ==> NextIs(b[f := Blk(b[f].size, false)], base, after, w)
  {
  }

  lemma TakenOk(s: State, p: int, f: nat)
    requires HeapOk(s) && FreeAt(s.b, f) && LinkedFrom(s, p, s.base + f)
    ensures p + 8 <= |s.m| && HeapOk(Taken(s, p, f)) && Untouched(s, Taken(s, p, f), -1)
  {
    hide Size; hide Next; hide StoreWord; hide Tiled; hide NextIs;
    FreeFits(s.b, |s.m|, p);
    var s' := Taken(s, p, f);
    TakenTiled(s.b, |s.m|, f, false);
    if p >= 0 {
      FreeFits(s.b, |s.m|, p);
      BlockSize(s.b, |s.m|, p);
      StoreInBlock(s.b, s.m, p, p + 4, Next(s.m, f));
      HeaderStore(s.m, p, 0, Next(s.m, f));
    }
    TakenLinked(s, p, f);
    NothingStored(s.b, s.m, f);
    KeptUntouched(s, s', if p >= 0 then p else f, -1);
  }

  lemma BlockSize(b: Blocks, len: nat, a: nat)
    requires Tiled(b, len) && a in b
    ensures b[a].size >= 8 && a + b[a].size <= len && a % 4 == 0 && b[a].size % 4 == 0
  {
    assert BlockOk(b, len, a);
  }

  /** A free block is linked from one place only. */
  lemma OnePredecessor(b: Blocks, base: nat, p: int, q: int, f: nat)
    requires base > 0 && NextIs(b, base, p, base + f) && NextIs(b, base, q, base + f)
    requires (p == -1 || (p >= 0 && FreeAt(b, p))) && (q == -1 || (q >= 0 && FreeAt(b, q)))
    ensures p == q
  {
  }

  lemma TakenLinked(s: State, p: int, f: nat)
    requires HeapOk(s) && FreeAt(s.b, f) && LinkedFrom(s, p, s.base + f) && p + 8 <= |s.m|
    ensures Linked(Taken(s, p, f))
  {
    hide Size; hide Next; hide StoreWord; hide Tiled; hide NextIs; hide Apart; hide Stored;
    var s' := Taken(s, p, f);
    var fw := Next(s.m, f);
    if p >= 0 {
      BlockSize(s.b, |s.m|, p);
      StoreInBlock(s.b, s.m, p, p + 4, fw);
      HeaderStore(s.m, p, 0, fw);
    }
    TakenLink(s.b, s.base, f, -1, s.head, fw);
    if s.head == s.base + f {
      OnePredecessor(s.b, s.base, p, -1, f);
    }
    forall a: nat | a in s'.b && s'.b[a].free
      ensures NextIs(s'.b, s'.base, a, Next(s'.m, a))
    {
      TakenLink(s.b, s.base, f, a, Next(s.m, a), fw);
      if Next(s.m, a) == s.base + f {
        OnePredecessor(s.b, s.base, p, a, f);
      }
      assert p >= 0 && a != p ==> Kept(s.m, s'.m, a, s.b[a].size);
    }
  }

  // ---------------------------------------------------------------- cutting a block off

  /** The heap after the last need bytes of free block f are made an allocated block. */
  function Cut(s: State, f: nat, need: nat): State
    requires f in s.b && need <= s.b[f].size < 0x1_0000_0000 && f + s.b[f].size <= |s.m| && 4 <= need
    requires s.b[f].size - need >= 4
  {
    var rest := s.b[f].size - need;
    State(StoreWord(StoreWord(s.m, f, rest), f + rest, need), s.base, s.head,
          s.b[f := Blk(rest, true)][f + rest := Blk(need, false)])
  }

  lemma CutTiled(b: Blocks, len: nat, f: nat, rest: nat, need: nat)
    requires Tiled(b, len) && FreeAt(b, f) && b[f].size == rest + need && rest >= 8 && need >= 8 && need % 4 == 0
    ensures Tiled(b[f := Blk(rest, true)][f + rest := Blk(need, false)], len) && f + rest !in b
  {
    hide BlockOk;
    var b' := b[f := Blk(rest, true)][f + rest := Blk(need, false)];
    BlockInside(b, len, f, f + rest);
    forall a | a in b'
      ensures BlockOk(b', len, a)
    {
      CutBlock(b, len, f, rest, need, a);
    }
    forall a: nat, c: nat | a in b' && c in b' && a < c
      ensures a + b'[a].size <= c
    {
      CutOrder(b, len, f, rest, need, a, c);
    }
  }

  lemma CutBlock(b: Blocks, len: nat, f: nat, rest: nat, need: nat, a: nat)
    requires Tiled(b, len) && FreeAt(b, f) && b[f].size == rest + need && rest >= 8 && need >= 8 && need % 4 == 0
    requires a == f + rest || a in b
    ensures BlockOk(b[f := Blk(rest, true)][f + rest := Blk(need, false)], len, a)
  {
    hide BlockOk;
    assert BlockOk(b, len, f);
    if a == f {
      CutFront(b, len, f, rest, need);
    } else if a == f + rest {
      CutTail(b, len, f, rest, need);
    } else {
      assert BlockOk(b, len, a);
      CutElsewhere(b, len, f, rest, need, a);
    }
  }

  lemma CutFront(b: Blocks, len: nat, f: nat, rest: nat, need: nat)
    requires FreeAt(b, f) && BlockOk(b, len, f) && b[f].size == rest + need && rest >= 8 && need >= 8 && need % 4 == 0
    ensures BlockOk(b[f := Blk(rest, true)][f + rest := Blk(need, false)], len, f)
  {
  }

  lemma CutTail(b: Blocks, len: nat, f: nat, rest: nat, need: nat)
    requires FreeAt(b, f) && BlockOk(b, len, f) && b[f].size == rest + need && rest >= 8 && need >= 8 && need % 4 == 0
    ensures BlockOk(b[f := Blk(rest, true)][f + rest := Blk(need, false)], len, f + rest)
  {
  }

  lemma CutElsewhere(b: Blocks, len: nat, f: nat, rest: nat, need: nat, a: nat)
    requires f in b && a in b && BlockOk(b, len, a) && b[f].size == rest + need && a != f && a != f + rest
    ensures BlockOk(b[f := Blk(rest, true)][f + rest := Blk(need, false)], len, a)
  {
    assert b[f := Blk(rest, true)][f + rest := Blk(need, false)][a] == b[a];
  }

  lemma CutOrder(b: Blocks, len: nat, f: nat, rest: nat, need: nat, a: nat, c: nat)
    requires Tiled(b, len) && FreeAt(b, f) && b[f].size == rest + need && rest >= 8 && need >= 8
    requires (a == f + rest || a in b) && (c == f + rest || c in b) && a < c
    ensures a + b[f := Blk(rest, true)][f + rest := Blk(need, false)][a].size <= c
  {
    hide BlockOk;
    BlockInside(b, len, f, f + rest);
  }

  /** No block starts inside another. */
  lemma BlockInside(b: Blocks, len: nat, f: nat, x: nat)
    requires Tiled(b, len) && f in b && f < x < f + b[f].size
    ensures x !in b
  {
  }

  lemma CutLink(b: Blocks, base: nat, f: nat, rest: nat, need: nat, after: int, w: int)
    requires FreeAt(b, f) && f + rest !in b && NextIs(b, base, after, w)
    ensures NextIs(b[f := Blk(rest, true)][f + rest := Blk(need, false)], base, after, w)
  {
  }

  lemma CutStores(s: State, f: nat, need: nat)
    requires HeapOk(s) && FreeAt(s.b, f) && s.b[f].size - need >= 8 && need >= 8
    ensures f + s.b[f].size <= |s.m| < 0x1_0000_0000
    ensures OthersKept(s.b, s.m, Cut(s, f, need).m, f) && Next(Cut(s, f, need).m, f) == Next(s.m, f)
    ensures Size(Cut(s, f, need).m, f) == s.b[f].size - need && Size(Cut(s, f, need).m, f + s.b[f].size - need) == need
  {
    hide StoreWord; hide LoadWord; hide Linked; hide Apart;
    BlockSize(s.b, |s.m|, f);
    var rest := s.b[f].size - need;
    var m1 := StoreWord(s.m, f, rest);
    var m2 := StoreWord(m1, f + rest, need);
    StoreInBlock(s.b, s.m, f, f, rest);
    StoreInBlock(s.b, m1, f, f + rest, need);
    OthersKeptTwice(s.b, s.m, m1, m2, f);
    LoadStore(s.m, f, rest, f);
    LoadStore(s.m, f, rest, f + 4);
    LoadStore(m1, f + rest, need, f);
    LoadStore(m1, f + rest, need, f + 4);
    LoadStore(m1, f + rest, need, f + rest);
  }

  lemma CutOk(s: State, f: nat, need: nat)
    requires HeapOk(s) && FreeAt(s.b, f) && s.b[f].size - need >= 8 && need >= 8 && need % 4 == 0
    ensures f + s.b[f].size <= |s.m| < 0x1_0000_0000
    ensures HeapOk(Cut(s, f, need)) && Untouched(s, Cut(s, f, need), -1)
  {
    hide Size; hide Next; hide StoreWord; hide Tiled; hide NextIs; hide Linked; hide Apart;
    BlockSize(s.b, |s.m|, f);
    CutStores(s, f, need);
    var s' := Cut(s, f, need);
    CutTiled(s.b, |s.m|, f, s.b[f].size - need, need);
    KeptUntouched(s, s', f, -1);
    CutLinked(s, f, need);
    CutApart(s.b, |s.m|, f, s.b[f].size - need, need);
  }

  lemma CutLinked(s: State, f: nat, need: nat)
    requires HeapOk(s) && FreeAt(s.b, f) && s.b[f].size - need >= 8 && need >= 8 && need % 4 == 0
    requires f + s.b[f].size <= |s.m| < 0x1_0000_0000
    ensures Linked(Cut(s, f, need))
  {
    hide Size; hide Next; hide StoreWord; hide Tiled; hide NextIs; hide Apart;
    CutStores(s, f, need);
    var s' := Cut(s, f, need);
    var rest := s.b[f].size - need;
    BlockSize(s.b, |s.m|, f);
    CutTiled(s.b, |s.m|, f, rest, need);
    CutLink(s.b, s.base, f, rest, need, -1, s.head);
    forall a: nat | a in s'.b && s'.b[a].free
      ensures NextIs(s'.b, s'.base, a, Next(s'.m, a))
    {
      assert a != f ==> Kept(s.m, s'.m, a, s.b[a].size);
      CutLink(s.b, s.base, f, rest, need, a, Next(s.m, a));
    }
  }

  lemma CutApart(b: Blocks, len: nat, f: nat, rest: nat, need: nat)
    requires Tiled(b, len) && Apart(b, {}) && FreeAt(b, f) && b[f].size == rest + need && f + rest !in b
    ensures Apart(b[f := Blk(rest, true)][f + rest := Blk(need, false)], {})
  {
  }

  // ---------------------------------------------------------------- inserting a freed block

  /** The heap after block a is linked in between p (-1: the list head) and pointer w. */
  function Inserted(s: State, p: int, a: nat, w: Word): State
    requires a in s.b && p + 8 <= |s.m| && a + 8 <= |s.m| && s.base + a < 0x1_0000_0000
  {
    State(StoreWord(if p < 0 then s.m else StoreWord(s.m, p + 4, s.base + a), a + 4, w), s.base,
          if p < 0 then s.base + a else s.head,
          s.b[a := Blk(s.b[a].size, true)])
  }

  /** The free blocks that may touch a new neighbour after an insertion. */
  function Touching(p: int, a: nat): set<nat> {
    if p < 0 then {a} else {p, a}
  }

  lemma InsertedApart(b: Blocks, base: nat, p: int, a: nat, w: int)
    requires Apart(b, {}) && LiveAt(b, a) && NextIs(b, base, p, w) && (p < 0 || FreeAt(b, p))
    requires p < a && (w == 0 || a < w - base)
    ensures Apart(b[a := Blk(b[a].size, true)], Touching(p, a))
  {
  }

  lemma InsertedLink(b: Blocks, base: nat, p: int, a: nat, w: int, after: int, u: int)
    requires base > 0 && LiveAt(b, a) && NextIs(b, base, p, w) && p < a && (w == 0 || a < w - base)
    requires NextIs(b, base, after, u) && (after == -1 || (after >= 0 && FreeAt(b, after)))
    requires p == -1 || (p >= 0 && FreeAt(b, p))
    ensures after == p ==> NextIs(b[a := Blk(b[a].size, true)], base, after, base + a)
    ensures after != p ==> NextIs(b[a := Blk(b[a].size, true)], base, after, u)
    ensures NextIs(b[a := Blk(b[a].size, true)], base, a, w)
  {
  }

  lemma InsertedStores(s: State, p: int, a: nat, w: Word)
    requires HeapOk(s) && LiveAt(s.b, a) && (p == -1 || (p >= 0 && FreeAt(s.b, p)))
    ensures p + 8 <= |s.m| && a + 8 <= |s.m| && s.base + a < 0x1_0000_0000 && p != a
    ensures var m' := Inserted(s, p, a, w).m;
            && |m'| == |s.m| && Next(m', a) == w && Size(m', a) == Size(s.m, a)
            && (p >= 0 ==> Next(m', p) == s.base + a && Size(m', p) == Size(s.m, p))
            && (forall c: nat {:trigger s.b[c]} :: c in s.b && c != a && c != p ==> Kept(s.m, m', c, s.b[c].size))
  {
    hide StoreWord; hide LoadWord; hide Size; hide Next; hide Linked; hide Apart; hide Same;
    BlockSize(s.b, |s.m|, a);
    FreeFits(s.b, |s.m|, p);
    var m1 := if p < 0 then s.m else StoreWord(s.m, p + 4, s.base + a);
    var m2 := StoreWord(m1, a + 4, w);
    NothingStored(s.b, s.m, a);
    if p >= 0 {
      BlockSize(s.b, |s.m|, p);
      StoreInBlock(s.b, s.m, p, p + 4, s.base + a);
      HeaderStore(s.m, p, 0, s.base + a);
    }
    StoreInBlock(s.b, m1, a, a + 4, w);
    HeaderStore(m1, a, 0, w);
    assert p >= 0 ==> Kept(s.m, m1, a, s.b[a].size);
    assert p >= 0 ==> Kept(m1, m2, p, s.b[p].size);
    forall c: nat | c in s.b && c != a && c != p
      ensures Kept(s.m, m2, c, s.b[c].size)
    {
      KeptTwice(s.m, m1, m2, c, s.b[c].size);
    }
  }

  lemma KeptTwice(m: Bytes, m1: Bytes, m2: Bytes, c: nat, size: nat)
    requires Kept(m, m1, c, size) && Kept(m1, m2, c, size)
    ensures Kept(m, m2, c, size)
  {
    hide Size; hide Next;
  }

  lemma InsertedOk(s: State, p: int, a: nat, w: Word)
    requires HeapOk(s) && LiveAt(s.b, a) && LinkedFrom(s, p, w) && p < a && (w == 0 || a < w - s.base)
    ensures p + 8 <= |s.m| && a + 8 <= |s.m| && s.base + a < 0x1_0000_0000
    ensures HeapBut(Inserted(s, p, a, w), Touching(p, a)) && Untouched(s, Inserted(s, p, a, w), a)
    ensures LinkedFrom(Inserted(s, p, a, w), a, w) && LinkedFrom(Inserted(s, p, a, w), p, s.base + a)
  {
    hide StoreWord; hide Size; hide Next; hide Tiled; hide NextIs; hide Apart; hide Same;
    InsertedStores(s, p, a, w);
    var s' := Inserted(s, p, a, w);
    TakenTiled(s.b, |s.m|, a, true);
    InsertedApart(s.b, s.base, p, a, w);
    InsertedLink(s.b, s.base, p, a, w, -1, s.head);
    forall x: nat | x in s'.b && s'.b[x].free
      ensures NextIs(s'.b, s'.base, x, Next(s'.m, x))
    {
      if x != a {
        assert x != p ==> Kept(s.m, s'.m, x, s.b[x].size);
        InsertedLink(s.b, s.base, p, a, w, x, Next(s.m, x));
      }
    }
  }

  // ---------------------------------------------------------------- joining two free blocks

  function Merged(b: Blocks, a: nat): Blocks
    requires a in b && a + b[a].size in b
  {
    b[a := Blk(b[a].size + b[a + b[a].size].size, true)] - {a + b[a].size}
  }

  /** The heap after free block a takes over the free block that follows it. */
  function Joined(s: State, a: nat): State
    requires a in s.b && a + s.b[a].size in s.b && a + 8 <= |s.m|
    requires s.b[a].size + s.b[a + s.b[a].size].size < 0x1_0000_0000
  {
    var c := a + s.b[a].size;
    var sum := s.b[a].size + s.b[c].size;
    State(StoreWord(StoreWord(s.m, a, sum), a + 4, Next(s.m, c)), s.base, s.head, Merged(s.b, a))
  }

  /** The free blocks that may touch a neighbour after a takes over c. */
  function StillTouching(ex: set<nat>, a: nat, c: nat): set<nat> {
    if c in ex then ex - {c} + {a} else ex - {a}
  }

  lemma JoinedTiled(b: Blocks, len: nat, a: nat, c: nat)
    requires Tiled(b, len) && FreeAt(b, a) && c == a + b[a].size && FreeAt(b, c)
    ensures Tiled(b[a := Blk(b[a].size + b[c].size, true)] - {c}, len)
  {
    hide BlockOk;
    var b' := b[a := Blk(b[a].size + b[c].size, true)] - {c};
    BlockSize(b, len, a);
    forall x | x in b'
      ensures BlockOk(b', len, x)
    {
      JoinedBlock(b, len, a, c, x);
    }
  }

  lemma JoinedBlock(b: Blocks, len: nat, a: nat, c: nat, x: nat)
    requires Tiled(b, len) && FreeAt(b, a) && c == a + b[a].size && FreeAt(b, c) && x in b && x != c
    ensures BlockOk(b[a := Blk(b[a].size + b[c].size, true)] - {c}, len, x)
  {
    hide BlockOk;
    assert BlockOk(b, len, a) && BlockOk(b, len, c) && BlockOk(b, len, x);
    if x == a {
      JoinedFront(b, len, a, c);
    } else {
      assert x + b[x].size != c by {
        BlockSize(b, len, a);
        BlockSize(b, len, x);
        assert if x < a then x + b[x].size <= a else c <= x;
      }
      JoinedElsewhere(b, len, a, c, x);
    }
  }

  lemma JoinedFront(b: Blocks, len: nat, a: nat, c: nat)
    requires a in b && c in b && BlockOk(b, len, a) && BlockOk(b, len, c) && c == a + b[a].size && a != c
    ensures BlockOk(b[a := Blk(b[a].size + b[c].size, true)] - {c}, len, a)
  {
  }

  lemma JoinedElsewhere(b: Blocks, len: nat, a: nat, c: nat, x: nat)
    requires a in b && c in b && x in b && BlockOk(b, len, x) && x != a && x != c && x + b[x].size != c
    ensures BlockOk(b[a := Blk(b[a].size + b[c].size, true)] - {c}, len, x)
  {
    assert (b[a := Blk(b[a].size + b[c].size, true)] - {c})[x] == b[x];
  }

  lemma JoinedApart(b: Blocks, len: nat, ex: set<nat>, a: nat, c: nat)
    requires Tiled(b, len) && Apart(b, ex) && FreeAt(b, a) && c == a + b[a].size && FreeAt(b, c)
    ensures Apart(b[a := Blk(b[a].size + b[c].size, true)] - {c}, StillTouching(ex, a, c))
  {
  }

  lemma JoinedLink(b: Blocks, len: nat, base: nat, a: nat, c: nat, cw: int, after: int, u: int)
    requires Tiled(b, len) && base > 0 && FreeAt(b, a) && c == a + b[a].size && FreeAt(b, c) && NextIs(b, base, c, cw)
    requires NextIs(b, base, after, u) && (after == -1 || (after >= 0 && FreeAt(b, after) && after != c))
    ensures NextIs(b[a := Blk(b[a].size + b[c].size, true)] - {c}, base, after, if after == a then cw else u)
  {
    hide BlockOk;
    BlockSize(b, len, c);
  }

  lemma JoinedStores(s: State, a: nat)
    requires Sized(s) && Tiled(s.b, |s.m|) && FreeAt(s.b, a) && FreeAt(s.b, a + s.b[a].size)
    ensures a + 8 <= |s.m| && s.b[a].size + s.b[a + s.b[a].size].size < 0x1_0000_0000
    ensures var m' := Joined(s, a).m;
            && OthersKept(s.b, s.m, m', a)
            && Next(m', a) == Next(s.m, a + s.b[a].size) && Size(m', a) == s.b[a].size + s.b[a + s.b[a].size].size
  {
    hide StoreWord; hide LoadWord; hide Size; hide Next;
    var c := a + s.b[a].size;
    BlockSize(s.b, |s.m|, a);
    BlockSize(s.b, |s.m|, c);
    var sum := s.b[a].size + s.b[c].size;
    var m1 := StoreWord(s.m, a, sum);
    StoreInBlock(s.b, s.m, a, a, sum);
    StoreInBlock(s.b, m1, a, a + 4, Next(s.m, c));
    OthersKeptTwice(s.b, s.m, m1, StoreWord(m1, a + 4, Next(s.m, c)), a);
    HeaderStore(s.m, a, sum, 0);
    HeaderStore(m1, a, 0, Next(s.m, c));
  }

  lemma JoinedOk(s: State, ex: set<nat>, a: nat)
    requires HeapBut(s, ex) && FreeAt(s.b, a) && FreeAt(s.b, a + s.b[a].size)
    ensures a + 8 <= |s.m| && s.b[a].size + s.b[a + s.b[a].size].size < 0x1_0000_0000
    ensures HeapBut(Joined(s, a), StillTouching(ex, a, a + s.b[a].size)) && Untouched(s, Joined(s, a), -1)
  {
    hide StoreWord; hide Size; hide Next; hide Tiled; hide NextIs; hide Apart; hide Same;
    var c := a + s.b[a].size;
    JoinedStores(s, a);
    BlockSize(s.b, |s.m|, a);
    var s' := Joined(s, a);
    JoinedTiled(s.b, |s.m|, a, c);
    JoinedApart(s.b, |s.m|, ex, a, c);
    KeptUntouched(s, s', a, -1);
    JoinedLink(s.b, |s.m|, s.base, a, c, Next(s.m, c), -1, s.head);
    forall x: nat | x in s'.b && s'.b[x].free
      ensures NextIs(s'.b, s'.base, x, Next(s'.m, x))
    {
      assert x != a ==> Kept(s.m, s'.m, x, s.b[x].size);
      JoinedLink(s.b, |s.m|, s.base, a, c, Next(s.m, c), x, Next(s.m, x));
    }
  }

  /** A block that does not touch the block it links to is no exception. */
  lemma NotTouching(s: State, ex: set<nat>, x: nat)
    requires HeapBut(s, ex) && FreeAt(s.b, x) && (Next(s.m, x) == 0 || x + s.b[x].size != Next(s.m, x) - s.base)
    ensures HeapBut(s, ex - {x})
  {
    hide Size; hide Next; hide StoreWord;
    assert NextIs(s.b, s.base, x, Next(s.m, x));
  }
}
