/**
 Growing a FlatFS file: lemmas about one allocation step at a time, and the invariant
 Growing that the allocation methods carry from step to step.
*/
module FlatGrowth {
  import opened Words
  import opened Bitmaps
  import opened FlatLayout

  // ---------------------------------------------------------------- frames

  /** A tree stands as long as its tables keep their contents and its blocks their owners. */
  lemma TreeCoreFrame(d: Disk, d': Disk, fid: nat, ino: WordBlock, di: WordBlock, n: nat, own: Owners, own': Owners)
    requires TreeCore(d, fid, ino, di, n, own)
    requires |d'| == |d|
    requires forall x :: x in own && own[x].fid == fid ==> x in own' && own'[x] == own[x]
    requires forall x :: 0 <= x < |d| && x in own && own[x].fid == fid && own[x].slot.Table? ==> d'[x] == d[x]
    ensures TreeCore(d', fid, ino, di, n, own')
    ensures forall b :: 0 <= b < n ==> Ptr(d', ino, di, b) == Ptr(d, ino, di, b)
  {
    forall b | 0 <= b < MAX_BLOCKS && (b < DIRECT || DIRECT + SINDIR * ((b - DIRECT) / SINDIR) < n)
      ensures Ptr(d', ino, di, b) == Ptr(d, ino, di, b)
    {
      if b >= DIRECT {
        var g := (b - DIRECT) / SINDIR;
        assert Holds(own, TableBlock(ino, di, g), Role(fid, Table(g)));
      }
    }
    forall b | 0 <= b < n
      ensures Ptr(d', ino, di, b) == Ptr(d, ino, di, b)
      ensures Holds(own', Ptr(d', ino, di, b), Role(fid, Data(b)))
    {
      assert Holds(own, Ptr(d, ino, di, b), Role(fid, Data(b)));
    }
  }

  /** Up to 135 blocks the double-indirect block plays no part. */
  lemma DoubleIrrelevant(d: Disk, fid: nat, ino: WordBlock, di: WordBlock, di': WordBlock, n: nat, own: Owners)
    requires TreeCore(d, fid, ino, di, n, own) && n <= DIRECT + SINDIR
    ensures TreeCore(d, fid, ino, di', n, own)
    ensures forall b :: 0 <= b < n ==> Ptr(d, ino, di', b) == Ptr(d, ino, di, b)
  {
    forall b | 0 <= b < MAX_BLOCKS && (b < n || DIRECT + SINDIR * ((b - DIRECT) / SINDIR) < n)
      ensures Ptr(d, ino, di', b) == Ptr(d, ino, di, b)
    {
    }
    forall g | 0 <= g <= SINDIR && DIRECT + SINDIR * g < n
      ensures Holds(own, TableBlock(ino, di', g), Role(fid, Table(g)))
    {
      assert g == 0;
      assert Holds(own, TableBlock(ino, di, g), Role(fid, Table(g)));
    }
  }

  /** Giving free blocks away does not disturb a tree. */
  lemma TreeCoreGrew(m: Image, m': Image, fid: nat, n: nat, total: nat)
    requires Sound(m, total) && |m'.bat| == 128 && Grew(m, m', fid, total, Nothing)
    requires TreeCore(m.d, fid, m.ino, m.di, n, m.own)
    ensures TreeCore(m'.d, fid, m.ino, m.di, n, m'.own) && Kept(m.d, m.ino, m.di, m'.d, m.ino, m.di, n)
  {
    TreeCoreFrame(m.d, m'.d, fid, m.ino, m.di, n, m.own, m'.own);
  }

  // ---------------------------------------------------------------- growth

  /** Adding one direct block. */
  lemma AddDirect(d: Disk, fid: nat, ino: WordBlock, di: WordBlock, n: nat, own: Owners, x: Word)
    requires TreeCore(d, fid, ino, di, n, own) && n < DIRECT
    requires x !in own && x < |d|
    ensures TreeCore(d[x := ZeroBlock()], fid, ino[1 + n := x], di, n + 1, own[x := Role(fid, Data(n))])
    ensures Kept(d, ino, di, d[x := ZeroBlock()], ino[1 + n := x], di, n)
    ensures Zeroed(d[x := ZeroBlock()], ino[1 + n := x], di, n, n + 1)
  {
    var d', ino', own' := d[x := ZeroBlock()], ino[1 + n := x], own[x := Role(fid, Data(n))];
    forall b | 0 <= b < n + 1
      ensures Holds(own', Ptr(d', ino', di, b), Role(fid, Data(b)))
    {
      if b < n {
        assert Holds(own, Ptr(d, ino, di, b), Role(fid, Data(b)));
      }
    }
  }

  /** A table block whose entries below off are kept, and the others replaced by si's. */
  ghost predicate TableStep(d: Disk, ino: WordBlock, di: WordBlock, ino': WordBlock, di': WordBlock,
                            g: nat, off: nat, t: nat, si: WordBlock)
    requires g <= SINDIR
  {
    && (forall b :: 0 <= b < DIRECT ==> DirectBlock(ino', b) == DirectBlock(ino, b))
    && (forall h :: 0 <= h < g ==> TableBlock(ino', di', h) == TableBlock(ino, di, h))
    && TableBlock(ino', di', g) == t < |d|
    && (off > 0 ==> TableBlock(ino, di, g) == t)
    && (forall j :: 0 <= j < off && j < SINDIR ==> si[j] == At(d, t)[j])
  }

  lemma TableStepPtr(d: Disk, fid: nat, ino: WordBlock, di: WordBlock, ino': WordBlock, di': WordBlock,
                     g: nat, off: nat, t: nat, si: WordBlock, own: Owners, b: nat)
    requires g <= SINDIR && off <= SINDIR && b < MAX_BLOCKS && b < DIRECT + SINDIR * g + SINDIR
    requires TreeCore(d, fid, ino, di, DIRECT + SINDIR * g + off, own)
    requires TableStep(d, ino, di, ino', di', g, off, t, si) && Holds(own, t, Role(fid, Table(g)))
    ensures var p := Ptr(d[t := Encode(si)], ino', di', b); var base := DIRECT + SINDIR * g;
            && (b < base + off ==> p == Ptr(d, ino, di, b))
            && (b >= base ==> p == si[b - base])
  {
    hide Encode; hide Decode;
    DecodeEncode(si);
    if b >= DIRECT {
      var h := (b - DIRECT) / SINDIR;
      assert h <= g && (h == g <==> b >= DIRECT + SINDIR * g);
      if h < g {
        assert Holds(own, TableBlock(ino, di, h), Role(fid, Table(h)));
      } else {
        assert (b - DIRECT) % SINDIR == b - DIRECT - SINDIR * g;
      }
    }
  }

  lemma ExtendTableTail(d: Disk, fid: nat, ino: WordBlock, di: WordBlock, ino': WordBlock, di': WordBlock,
                        g: nat, off: nat, num: nat, t: nat, si: WordBlock, own: Owners)
    requires g <= SINDIR && off + num <= SINDIR && 0 < num
    requires TreeCore(d, fid, ino, di, DIRECT + SINDIR * g + off, own)
    requires TableStep(d, ino, di, ino', di', g, off, t, si) && Holds(own, t, Role(fid, Table(g)))
    requires forall j :: off + num <= j < SINDIR ==> si[j] == 0
    ensures TablesOwned(fid, ino', di', DIRECT + SINDIR * g + off + num, own)
    ensures TailZero(d[t := Encode(si)], ino', di', DIRECT + SINDIR * g + off + num)
  {
    hide Encode; hide Decode; hide Ptr; hide At;
    var d', n' := d[t := Encode(si)], DIRECT + SINDIR * g + off + num;
    forall h | 0 <= h <= SINDIR && DIRECT + SINDIR * h < n'
      ensures Holds(own, TableBlock(ino', di', h), Role(fid, Table(h)))
    {
      if h < g {
        assert Holds(own, TableBlock(ino, di, h), Role(fid, Table(h)));
      }
    }
    forall b | n' <= b < MAX_BLOCKS && DIRECT <= b && DIRECT + SINDIR * ((b - DIRECT) / SINDIR) < n'
      ensures Ptr(d', ino', di', b) == 0
    {
      TableStepPtr(d, fid, ino, di, ino', di', g, off, t, si, own, b);
    }
  }

  lemma ExtendTableData(d: Disk, fid: nat, ino: WordBlock, di: WordBlock, ino': WordBlock, di': WordBlock,
                        g: nat, off: nat, num: nat, t: nat, si: WordBlock, own: Owners, b: nat)
    requires g <= SINDIR && off + num <= SINDIR && b < DIRECT + SINDIR * g + off + num
    requires TreeCore(d, fid, ino, di, DIRECT + SINDIR * g + off, own)
    requires TableStep(d, ino, di, ino', di', g, off, t, si) && Holds(own, t, Role(fid, Table(g)))
    requires forall j :: off <= j < off + num ==> Holds(own, si[j], Role(fid, Data(DIRECT + SINDIR * g + j)))
    ensures var p := Ptr(d[t := Encode(si)], ino', di', b); var base := DIRECT + SINDIR * g;
            && Holds(own, p, Role(fid, Data(b)))
            && p == if b < base + off then Ptr(d, ino, di, b) else si[b - base]
  {
    hide Encode; hide Decode; hide Ptr; hide At; hide TailZero; hide TablesOwned;
    var base := DIRECT + SINDIR * g;
    TableStepPtr(d, fid, ino, di, ino', di', g, off, t, si, own, b);
    if b < base + off {
      assert Holds(own, Ptr(d, ino, di, b), Role(fid, Data(b)));
    } else {
      assert Holds(own, si[b - base], Role(fid, Data(base + (b - base))));
    }
  }

  /**
   Rewriting table g with more entries. The new table block is t, which already was
   table g unless the table is new (off == 0).
  */
  lemma ExtendTable(d: Disk, fid: nat, ino: WordBlock, di: WordBlock, ino': WordBlock, di': WordBlock,
                    g: nat, off: nat, num: nat, t: nat, si: WordBlock, own: Owners)
    requires g <= SINDIR && off + num <= SINDIR && 0 < num
    requires TreeCore(d, fid, ino, di, DIRECT + SINDIR * g + off, own)
    requires TableStep(d, ino, di, ino', di', g, off, t, si) && Holds(own, t, Role(fid, Table(g)))
    requires forall j :: off <= j < off + num ==> Holds(own, si[j], Role(fid, Data(DIRECT + SINDIR * g + j)))
    requires forall j :: off + num <= j < SINDIR ==> si[j] == 0
    ensures var d' := d[t := Encode(si)]; var n := DIRECT + SINDIR * g + off;
            && TreeCore(d', fid, ino', di', n + num, own)
            && (forall b :: 0 <= b < n ==> Ptr(d', ino', di', b) == Ptr(d, ino, di, b))
            && (forall b :: n <= b < n + num ==> Ptr(d', ino', di', b) == si[b - DIRECT - SINDIR * g])
  {
    var d', n := d[t := Encode(si)], DIRECT + SINDIR * g + off;
    hide Encode; hide Decode; hide Ptr; hide At; hide TailZero; hide TablesOwned; hide TableStep;
    assert n + num <= MAX_BLOCKS;
    ExtendTableTail(d, fid, ino, di, ino', di', g, off, num, t, si, own);
    forall b | 0 <= b < n + num
      ensures Holds(own, Ptr(d', ino', di', b), Role(fid, Data(b)))
      ensures Ptr(d', ino', di', b) == if b < n then Ptr(d, ino, di, b) else si[b - DIRECT - SINDIR * g]
    {
      ExtendTableData(d, fid, ino, di, ino', di', g, off, num, t, si, own, b);
    }
  }

  /** The pointers past the end do not matter to a file within its direct blocks. */
  lemma DirectTailIrrelevant(d: Disk, fid: nat, ino: WordBlock, ino': WordBlock, di: WordBlock, n: nat, own: Owners)
    requires TreeCore(d, fid, ino, di, n, own) && n <= DIRECT
    requires forall b :: 0 <= b < n ==> DirectBlock(ino', b) == DirectBlock(ino, b)
    requires ino'[8] == ino[8]
    ensures TreeCore(d, fid, ino', di, n, own) && Kept(d, ino, di, d, ino', di, n)
  {
    assert forall b :: 0 <= b < n ==> Ptr(d, ino', di, b) == Ptr(d, ino, di, b);
  }

  lemma CostMonotone(n: nat, m: nat)
    requires n <= m
    ensures Cost(n) + (m - n) <= Cost(m)
  {
  }

  /** What one more run of entries in a table costs. */
  lemma CostInTable(g: nat, off: nat, num: nat)
    requires off + num <= SINDIR && 0 < num
    ensures Cost(DIRECT + SINDIR * g + off + num) == Cost(DIRECT + SINDIR * g + off) + num + (if off == 0 then 1 else 0)
  {
    assert Tables(DIRECT + SINDIR * g + off + num) == g + 1;
    assert Tables(DIRECT + SINDIR * g + off) == if off == 0 then g else g + 1;
  }

  // ---------------------------------------------------------------- the growth invariant

  /**
   Between m0 and m the file grew from n to cur blocks: the first n stayed where they
   were and the new ones are zeroed.
  */
  ghost predicate Grown(m0: Image, m: Image, fid: nat, n: nat, cur: nat, total: nat, rw: Rewrites) {
    && n <= cur <= MAX_BLOCKS && Sound(m0, total) && Sound(m, total)
    && Grew(m0, m, fid, total, rw)
    && TreeCore(m.d, fid, m.ino, m.di, cur, m.own)
    && Kept(m0.d, m0.ino, m0.di, m.d, m.ino, m.di, n)
    && Zeroed(m.d, m.ino, m.di, n, cur)
  }

  /** Grown, at the cost of exactly Cost(cur) - Cost(n) blocks. */
  ghost predicate Growing(m0: Image, m: Image, fid: nat, n: nat, cur: nat, total: nat, rw: Rewrites) {
    && Grown(m0, m, fid, n, cur, total, rw)
    && FreeCount(m0.bat, total) - FreeCount(m.bat, total) == Cost(cur) - Cost(n)
  }

  lemma GrowingStart(m: Image, fid: nat, n: nat, total: nat, rw: Rewrites)
    requires Sound(m, total) && TreeCore(m.d, fid, m.ino, m.di, n, m.own)
    ensures Growing(m, m, fid, n, n, total, rw)
  {
  }

  /** Fresh zero blocks stay zero while the file grows further. */
  lemma ZeroedStep(m: Image, m': Image, fid: nat, n: nat, cur: nat, end: nat, total: nat, rw: Rewrites)
    requires n <= cur <= end <= MAX_BLOCKS && Sound(m, total) && |m'.bat| == 128 && Grew(m, m', fid, total, rw)
    requires TreeCore(m.d, fid, m.ino, m.di, cur, m.own)
    requires Zeroed(m.d, m.ino, m.di, n, cur) && Kept(m.d, m.ino, m.di, m'.d, m'.ino, m'.di, cur)
    requires Zeroed(m'.d, m'.ino, m'.di, cur, end)
    ensures Zeroed(m'.d, m'.ino, m'.di, n, end)
  {
    hide Ptr;
    forall b | n <= b < cur
      ensures var p := Ptr(m'.d, m'.ino, m'.di, b); p < |m'.d| && m'.d[p] == ZeroBlock()
    {
      assert Holds(m.own, Ptr(m.d, m.ino, m.di, b), Role(fid, Data(b)));
    }
  }

  lemma GrownTrans(m0: Image, m1: Image, m2: Image, fid: nat, n: nat, cur: nat, end: nat, total: nat, r1: Rewrites,
                   r2: Rewrites)
    requires Grown(m0, m1, fid, n, cur, total, r1) && Grown(m1, m2, fid, cur, end, total, r2)
    ensures Grown(m0, m2, fid, n, end, total, MaxRewrites(r1, r2))
  {
    hide Ptr; hide Bit;
    GrewTrans(m0, m1, m2, fid, total, r1, r2);
    ZeroedStep(m1, m2, fid, n, cur, end, total, r2);
  }

  lemma GrowingTrans(m0: Image, m1: Image, m2: Image, fid: nat, n: nat, cur: nat, end: nat, total: nat, r1: Rewrites,
                     r2: Rewrites)
    requires Growing(m0, m1, fid, n, cur, total, r1) && Growing(m1, m2, fid, cur, end, total, r2)
    ensures Growing(m0, m2, fid, n, end, total, MaxRewrites(r1, r2))
  {
    hide Grown; hide FreeCount; hide Cost;
    GrownTrans(m0, m1, m2, fid, n, cur, end, total, r1, r2);
  }

  /** A growth within the first 135 blocks does not depend on the double-indirect buffer. */
  lemma GrowingLow(m0: Image, m: Image, fid: nat, n: nat, cur: nat, total: nat, rw: Rewrites, di0: WordBlock,
                   di: WordBlock)
    requires Growing(m0, m, fid, n, cur, total, rw) && cur <= DIRECT + SINDIR
    ensures Growing(m0.(di := di0), m.(di := di), fid, n, cur, total, rw)
  {
    hide FreeCount; hide Cost;
    DoubleIrrelevant(m.d, fid, m.ino, m.di, di, cur, m.own);
    assert Kept(m0.d, m0.ino, di0, m.d, m.ino, di, n) by {
      forall b | 0 <= b < n ensures Ptr(m.d, m.ino, di, b) == Ptr(m0.d, m0.ino, di0, b) {
        assert Ptr(m.d, m.ino, m.di, b) == Ptr(m0.d, m0.ino, m0.di, b);
      }
    }
    assert Zeroed(m.d, m.ino, di, n, cur);
  }

  // ---------------------------------------------------------------- one direct block

  lemma GrowingDirect(m0: Image, m: Image, m': Image, r: Word, fid: nat, n: nat, i: nat, total: nat)
    requires Growing(m0, m, fid, n, i, total, Nothing) && i < DIRECT
    requires Sound(m', total) && Grew(m, m', fid, total, Nothing) && r !in m.own && r < |m.d|
    requires m'.d == m.d[r := ZeroBlock()] && m'.own == m.own[r := Role(fid, Data(i))]
    requires m'.ino == m.ino[1 + i := r] && m'.di == m.di
    requires FreeCount(m'.bat, total) == FreeCount(m.bat, total) - 1
    ensures Growing(m0, m', fid, n, i + 1, total, Nothing)
  {
    hide FreeCount;
    AddDirect(m.d, fid, m.ino, m.di, i, m.own, r);
    assert Growing(m, m', fid, i, i + 1, total, Nothing);
    GrowingTrans(m0, m, m', fid, n, i, i + 1, total, Nothing, Nothing);
  }

  lemma GrowingDirectTail(m0: Image, m: Image, ino: WordBlock, fid: nat, n: nat, cur: nat, total: nat)
    requires Growing(m0, m, fid, n, cur, total, Nothing) && cur <= DIRECT
    requires forall b :: 0 <= b < cur ==> DirectBlock(ino, b) == DirectBlock(m.ino, b)
    requires ino[8] == m.ino[8]
    ensures Growing(m0, m.(ino := ino), fid, n, cur, total, Nothing)
  {
    hide FreeCount;
    DirectTailIrrelevant(m.d, fid, m.ino, ino, m.di, cur, m.own);
    assert Zeroed(m.d, ino, m.di, n, cur);
  }

  // ---------------------------------------------------------------- one table

  /** First logical block of a table: todbl is -1 for the single-indirect one. */
  function TableStart(todbl: int): nat
    requires -1 <= todbl
  {
    DIRECT + SINDIR * (todbl + 1)
  }

  /** The pointer to table todbl is set, everything else in the two buffers is kept. */
  ghost predicate OnePointerSet(ino0: WordBlock, di0: WordBlock, ino: WordBlock, di: WordBlock, todbl: int)
    requires -1 <= todbl < SINDIR
  {
    && (todbl == -1 ==> di == di0 && ino == ino0[8 := ino[8]])
    && (todbl >= 0 ==> ino == ino0 && di == di0[todbl := di[todbl]])
  }

  /** Table todbl is block t, and the buffer pointers hold it. */
  ghost predicate TableFound(m0: Image, m1: Image, fid: nat, todbl: int, offset: nat, t: nat, total: nat)
    requires -1 <= todbl < SINDIR
  {
    && Sound(m0, total) && Sound(m1, total) && Grew(m0, m1, fid, total, Nothing)
    && OnePointerSet(m0.ino, m0.di, m1.ino, m1.di, todbl) && (offset > 0 ==> m1.ino == m0.ino && m1.di == m0.di)
    && t < total && TableBlock(m1.ino, m1.di, todbl + 1) == t && Holds(m1.own, t, Role(fid, Table(todbl + 1)))
    && FreeCount(m1.bat, total) == FreeCount(m0.bat, total) - (if offset == 0 then 1 else 0)
  }

  /** Entries offset.. of the table buffer point to num fresh zeroed blocks; the rest comes from block t, then zeros. */
  ghost predicate TableFilled(m1: Image, m2: Image, fid: nat, todbl: int, offset: nat, num: nat, t: nat, si: WordBlock,
                              total: nat)
    requires -1 <= todbl
  {
    && Sound(m2, total) && Sound(m1, total) && Grew(m1, m2, fid, total, Nothing)
    && m2.ino == m1.ino && m2.di == m1.di
    && (forall j :: 0 <= j < offset && j < SINDIR ==> si[j] == At(m1.d, t)[j])
    && (forall j :: offset <= j < offset + num && j < SINDIR ==>
         Holds(m2.own, si[j], Role(fid, Data(TableStart(todbl) + j))) && si[j] < |m2.d| && m2.d[si[j]] == ZeroBlock())
    && (forall j :: offset + num <= j < SINDIR ==> si[j] == 0)
    && FreeCount(m2.bat, total) == FreeCount(m1.bat, total) - num
  }

  lemma TableStepHolds(m0: Image, m1: Image, m2: Image, fid: nat, todbl: int, offset: nat, num: nat, t: nat,
                       si: WordBlock, total: nat)
    requires -1 <= todbl < SINDIR && offset < SINDIR
    requires TableFound(m0, m1, fid, todbl, offset, t, total)
             && TableFilled(m1, m2, fid, todbl, offset, num, t, si, total)
    ensures TableStep(m2.d, m0.ino, m0.di, m2.ino, m2.di, todbl + 1, offset, t, si)
    ensures Holds(m2.own, t, Role(fid, Table(todbl + 1)))
  {
    hide Decode; hide FreeCount;
    assert m2.d[t] == m1.d[t];
  }

  lemma TableWritten(m0: Image, m1: Image, m2: Image, fid: nat, todbl: int, offset: nat, num: nat, t: nat,
                     si: WordBlock, total: nat)
    requires -1 <= todbl < SINDIR && 0 < num && offset + num <= SINDIR
    requires TableFound(m0, m1, fid, todbl, offset, t, total)
             && TableFilled(m1, m2, fid, todbl, offset, num, t, si, total)
    requires TreeCore(m0.d, fid, m0.ino, m0.di, TableStart(todbl) + offset, m0.own)
    ensures t < |m2.d|
    ensures var d := m2.d[t := Encode(si)]; var n := TableStart(todbl) + offset;
            && TreeCore(d, fid, m2.ino, m2.di, n + num, m2.own)
            && Kept(m0.d, m0.ino, m0.di, d, m2.ino, m2.di, n)
            && Zeroed(d, m2.ino, m2.di, n, n + num)
  {
    hide Encode; hide Decode; hide Ptr; hide At; hide TreeCore; hide Grew; hide TableStep; hide TableBlock; hide Bit;
    hide FreeCount;
    var n := TableStart(todbl) + offset;
    TableStepHolds(m0, m1, m2, fid, todbl, offset, num, t, si, total);
    GrewTrans(m0, m1, m2, fid, total, Nothing, Nothing);
    TreeCoreGrew(m0, m2, fid, n, total);
    var d := m2.d[t := Encode(si)];
    ExtendTable(m2.d, fid, m0.ino, m0.di, m2.ino, m2.di, todbl + 1, offset, num, t, si, m2.own);
    forall b | n <= b < n + num
      ensures var p := Ptr(d, m2.ino, m2.di, b); p < |d| && d[p] == ZeroBlock()
    {
      var j := b - TableStart(todbl);
      assert Ptr(d, m2.ino, m2.di, b) == si[j];
      assert Holds(m2.own, si[j], Role(fid, Data(TableStart(todbl) + j)));
    }
  }

  /** Rewriting one of the file's own pointer blocks. */
  lemma PointerRewritten(m0: Image, m: Image, fid: nat, t: nat, b: Block, total: nat, rw: Rewrites)
    requires Sound(m0, total) && Sound(m, total) && Grew(m0, m, fid, total, rw) && MayRewrite(m.own, t, fid, rw)
    ensures t < |m.d| && Sound(m.(d := m.d[t := b]), total) && Grew(m0, m.(d := m.d[t := b]), fid, total, rw)
  {
  }

  lemma GrowingTable(m0: Image, m1: Image, m2: Image, fid: nat, todbl: int, offset: nat, num: nat, t: nat,
                     si: WordBlock, total: nat)
    requires -1 <= todbl < SINDIR && 0 < num && offset + num <= SINDIR
    requires TableFound(m0, m1, fid, todbl, offset, t, total)
             && TableFilled(m1, m2, fid, todbl, offset, num, t, si, total)
    requires TreeCore(m0.d, fid, m0.ino, m0.di, TableStart(todbl) + offset, m0.own)
    ensures t < |m2.d|
    ensures Growing(m0, m2.(d := m2.d[t := Encode(si)]), fid, TableStart(todbl) + offset,
              TableStart(todbl) + offset + num, total, TablesOnly)
  {
    hide Encode; hide Decode; hide Ptr; hide At; hide TreeCore; hide Grew; hide TableStep; hide TableBlock; hide Bit;
    hide FreeCount; hide Cost;
    TableWritten(m0, m1, m2, fid, todbl, offset, num, t, si, total);
    TableStepHolds(m0, m1, m2, fid, todbl, offset, num, t, si, total);
    GrewTrans(m0, m1, m2, fid, total, Nothing, Nothing);
    GrewWeaken(m0, m2, fid, total, TablesOnly);
    PointerRewritten(m0, m2, fid, t, Encode(si), total, TablesOnly);
    CostInTable(todbl + 1, offset, num);
  }

  // ---------------------------------------------------------------- the double-indirect block

  lemma DoubleZeroStep(m: Image, m': Image, fid: nat, i: nat, cur: nat, num: nat, total: nat)
    requires i < SINDIR && m'.ino == m.ino && m'.di == m.di[i := m'.di[i]] && TableStart(i) <= cur && num > 0
    requires DoubleZero(m.ino, m.di, cur) && Sound(m, total) && Sound(m', total) && Grew(m, m', fid, total, TablesOnly)
    requires Holds(m.own, m.ino[9], Role(fid, Double))
    ensures DoubleZero(m'.ino, m'.di, cur + num) && Holds(m'.own, m'.ino[9], Role(fid, Double))
  {
    forall g | 1 <= g <= SINDIR && cur + num <= DIRECT + SINDIR * g
      ensures TableBlock(m'.ino, m'.di, g) == 0
    {
      assert TableBlock(m.ino, m.di, g) == 0;
    }
  }

  /** Writing the double-indirect buffer back. */
  lemma GrowingDouble(m0: Image, m: Image, fid: nat, n: nat, cur: nat, total: nat)
    requires Growing(m0, m, fid, n, cur, total, AllPointers) && Holds(m.own, m.ino[9], Role(fid, Double))
    ensures m.ino[9] < |m.d|
    ensures Growing(m0, m.(d := m.d[m.ino[9] := Encode(m.di)]), fid, n, cur, total, AllPointers)
    ensures At(m.d[m.ino[9] := Encode(m.di)], m.ino[9]) == m.di
  {
    hide Encode; hide Decode; hide Ptr; hide FreeCount; hide Cost; hide Bit; hide Grew; hide TailZero;
    hide TablesOwned;
    var d := m.d[m.ino[9] := Encode(m.di)];
    DecodeEncode(m.di);
    assert At(d, m.ino[9]) == m.di;
    PointerRewritten(m0, m, fid, m.ino[9], Encode(m.di), total, AllPointers);
    TreeCoreFrame(m.d, d, fid, m.ino, m.di, cur, m.own, m.own);
    forall b | n <= b < cur
      ensures var p := Ptr(d, m.ino, m.di, b); p < |d| && d[p] == ZeroBlock()
    {
      assert Holds(m.own, Ptr(m.d, m.ino, m.di, b), Role(fid, Data(b)));
    }
  }

  /** The end of the part of a file reached without the double-indirect block, or the whole file. */
  function LowEnd(n: nat): nat {
    if n <= DIRECT + SINDIR then n else DIRECT + SINDIR
  }

  lemma CostDirect(n: nat, m: nat)
    requires n <= m <= DIRECT + SINDIR
    ensures m <= DIRECT ==> Cost(m) - Cost(n) == m - n
    ensures n <= DIRECT && DIRECT <= m ==> Cost(m) - Cost(n) == Cost(m) - Cost(DIRECT) + DIRECT - n >= DIRECT - n
    ensures Cost(m) >= Cost(n)
  {
  }

  lemma GrowingWeaken(m0: Image, m: Image, fid: nat, n: nat, cur: nat, total: nat)
    requires Growing(m0, m, fid, n, cur, total, Nothing)
    ensures Growing(m0, m, fid, n, cur, total, TablesOnly)
  {
    hide Ptr; hide FreeCount; hide Cost; hide Kept; hide Zeroed; hide TreeCore;
    GrewWeaken(m0, m, fid, total, TablesOnly);
  }

  /** Block contents and owners count for Grew, buffers do not. */
  lemma GrewLow(m0: Image, m: Image, fid: nat, total: nat, di0: WordBlock, di: WordBlock)
    requires Sound(m0, total) && Sound(m, total) && Grew(m0, m, fid, total, TablesOnly)
    ensures Sound(m.(di := di), total) && Grew(m0.(di := di0), m.(di := di), fid, total, AllPointers)
  {
  }

  lemma GrewLow2(m0: Image, m1: Image, m: Image, fid: nat, total: nat, di: WordBlock)
    requires Sound(m0, total) && Sound(m1, total) && Sound(m, total)
    requires Grew(m0, m1, fid, total, AllPointers) && Grew(m1, m, fid, total, AllPointers)
    ensures Sound(m.(di := di), total) && Grew(m0, m.(di := di), fid, total, AllPointers)
  {
    hide Bit;
    GrewTrans(m0, m1, m, fid, total, AllPointers, AllPointers);
  }

  lemma GrowingAll(m0: Image, m: Image, fid: nat, n: nat, cur: nat, total: nat)
    requires Growing(m0, m, fid, n, cur, total, TablesOnly)
    ensures Growing(m0, m, fid, n, cur, total, AllPointers)
  {
    hide Ptr; hide FreeCount; hide Cost; hide Kept; hide Zeroed; hide TreeCore; hide Bit;
  }

  /** While only tables change, the double-indirect block stays as it is. */
  lemma DoubleStays(m0: Image, m: Image, fid: nat, n: nat, n': nat, total: nat)
    requires Sound(m0, total) && |m.bat| == 128 && Grew(m0, m, fid, total, TablesOnly) && m.ino[9] == m0.ino[9]
             && n <= n'
    requires Holds(m0.own, m0.ino[9], Role(fid, Double)) && DoubleZero(m0.ino, At(m0.d, m0.ino[9]), n)
    ensures Holds(m.own, m.ino[9], Role(fid, Double)) && DoubleZero(m.ino, At(m.d, m.ino[9]), n')
  {
    hide Decode;
    var di := At(m0.d, m0.ino[9]);
    assert At(m.d, m.ino[9]) == di;
    forall g | 1 <= g <= SINDIR && n' <= DIRECT + SINDIR * g
      ensures TableBlock(m.ino, di, g) == 0
    {
      assert TableBlock(m0.ino, di, g) == 0;
    }
  }

  lemma GrownStart(m: Image, fid: nat, n: nat, total: nat, rw: Rewrites)
    requires Sound(m, total) && TreeCore(m.d, fid, m.ino, m.di, n, m.own)
    ensures Grown(m, m, fid, n, n, total, rw)
  {
  }

  lemma GrownWeaken(m0: Image, m: Image, fid: nat, n: nat, cur: nat, total: nat)
    requires Grown(m0, m, fid, n, cur, total, Nothing)
    ensures Grown(m0, m, fid, n, cur, total, AllPointers)
  {
    hide Ptr; hide Kept; hide Zeroed; hide TreeCore; hide Bit;
    GrewWeaken(m0, m, fid, total, AllPointers);
  }

  /** A new, zeroed double-indirect block in a file that did not need one so far. */
  lemma GrownNewDouble(m: Image, m': Image, r: Word, fid: nat, n: nat, total: nat)
    requires Sound(m, total) && Sound(m', total) && Grew(m, m', fid, total, Nothing)
    requires TreeCore(m.d, fid, m.ino, m.di, n, m.own) && n <= DIRECT + SINDIR
    requires r !in m.own && r < |m.d| && m'.d == m.d[r := ZeroBlock()] && m'.own == m.own[r := Role(fid, Double)]
    requires m'.ino == m.ino[9 := r] && m'.di == At(m'.d, r)
    ensures Grown(m, m', fid, n, n, total, Nothing)
    ensures DoubleZero(m'.ino, m'.di, n) && Holds(m'.own, m'.ino[9], Role(fid, Double))
  {
    hide Bit; hide Decode;
    DecodeZero();
    assert m'.di == ZeroWords();
    TreeCoreGrew(m, m', fid, n, total);
    DoubleIrrelevant(m'.d, fid, m.ino, m.di, m'.di, n, m'.own);
    PointerNineIrrelevant(m'.d, fid, m.ino, m'.ino, m'.di, n, m'.own);
    assert Kept(m.d, m.ino, m.di, m'.d, m'.ino, m'.di, n) by {
      forall b | 0 <= b < n ensures Ptr(m'.d, m'.ino, m'.di, b) == Ptr(m.d, m.ino, m.di, b) {
        assert Ptr(m'.d, m.ino, m'.di, b) == Ptr(m'.d, m.ino, m.di, b);
      }
    }
  }

  /** Only words 1 to 8 of the inode locate blocks, once the double-indirect buffer is loaded. */
  lemma PointerNineIrrelevant(d: Disk, fid: nat, ino: WordBlock, ino': WordBlock, di: WordBlock, n: nat, own: Owners)
    requires TreeCore(d, fid, ino, di, n, own)
    requires forall k :: 1 <= k < 9 ==> ino'[k] == ino[k]
    ensures TreeCore(d, fid, ino', di, n, own) && Kept(d, ino, di, d, ino', di, n)
  {
    hide At;
    assert forall b :: 0 <= b < MAX_BLOCKS ==> Ptr(d, ino', di, b) == Ptr(d, ino, di, b);
    assert forall g :: 0 <= g <= SINDIR ==> TableBlock(ino', di, g) == TableBlock(ino, di, g);
  }

  lemma FirstDirectZero(ino: WordBlock, r: Word)
    requires DirectZero(ino, 0)
    ensures DirectZero(ino[1 := r], 1)
  {
    var ino' := ino[1 := r];
    forall b | 1 <= b < DIRECT ensures DirectBlock(ino', b) == 0 {
      assert DirectBlock(ino, b) == 0;
    }
  }

  lemma DirectZeroNine(ino: WordBlock, r: Word, n: nat)
    requires DirectZero(ino, n)
    ensures DirectZero(ino[9 := r], n)
  {
    var ino' := ino[9 := r];
    forall b | n <= b < DIRECT ensures DirectBlock(ino', b) == 0 {
      assert DirectBlock(ino, b) == 0;
    }
  }

  lemma CostZero()
    ensures Cost(0) == 0
  {
  }

  lemma GrewLength(m0: Image, m: Image, fid: nat, total: nat, rw: Rewrites)
    requires total <= 4096 && |m0.bat| == 128 && |m.bat| == 128 && Grew(m0, m, fid, total, rw)
    ensures |m.d| == |m0.d|
  {
  }

  lemma GrewKeeps(m0: Image, m: Image, fid: nat, total: nat, rw: Rewrites, x: nat)
    requires total <= 4096 && |m0.bat| == 128 && |m.bat| == 128 && Grew(m0, m, fid, total, rw) && x in m0.own
    ensures x in m.own && m.own[x] == m0.own[x]
  {
  }

  // ---------------------------------------------------------------- running out of blocks

  /** The answer -1 of the bitmap search, as a block pointer. */
  const NONE: Word := 0xffff_ffff

  /** A block nobody has. */
  ghost predicate Fresh(m: Image, x: nat, total: nat)
    requires total <= 4096 && |m.bat| == 128
  {
    3 <= x < total && x !in m.own && !Bit(m.bat, x)
  }

  /** Direct pointers from..to name blocks that nobody had. */
  ghost predicate FreshDirect(m0: Image, ino: WordBlock, from: nat, to: nat, total: nat)
    requires total <= 4096 && |m0.bat| == 128
  {
    forall b {:trigger DirectBlock(ino, b)} :: from <= b < to && b < DIRECT ==> Fresh(m0, DirectBlock(ino, b), total)
  }

  ghost predicate SameDirect(ino0: WordBlock, ino: WordBlock, n: nat) {
    forall b {:trigger DirectBlock(ino, b)} :: 0 <= b < n && b < DIRECT ==> DirectBlock(ino, b) == DirectBlock(ino0, b)
  }

  /** Blocks that are still free were not written to. */
  ghost predicate FreeKept(m0: Image, m: Image, total: nat)
    requires total <= 4096 && |m.bat| == 128
  {
    |m.d| == |m0.d| && forall x :: 0 <= x < total && x < |m.d| && !Bit(m.bat, x) ==> m.d[x] == m0.d[x]
  }

  /**
   Where a file of n <= 7 blocks that finds f free ones stops growing: at a direct pointer, at the table (7),
   or in it (8).
  */
  function StopsAt(n: nat, f: nat): nat {
    if n + f <= DIRECT then n + f else DIRECT + 1
  }

  /**
   What growing a file of n <= 7 blocks leaves in the inode buffer m.ino when it runs out after f
   blocks, within its direct blocks and its single-indirect table: NONE at the pointer that got
   no block, or a table block whose contents on disk are as before.
  */
  ghost predicate RanOut(m0: Image, m: Image, fid: nat, n: nat, f: nat, total: nat)
    requires total <= 4096 && |m0.bat| == 128 && |m.bat| == 128
  {
    var k, t := StopsAt(n, f), m.ino[8];
    && Grew(m0, m, fid, total, Nothing)
    && SameDirect(m0.ino, m.ino, n) && FreshDirect(m0, m.ino, n, k, total)
    && (k < DIRECT ==> DirectBlock(m.ino, k) == NONE)
    && (k == DIRECT ==> t == NONE)
    && (k > DIRECT ==> Fresh(m0, t, total) && t < |m.d| && t < |m0.d| && m.d[t] == m0.d[t]
                       && forall b {:trigger DirectBlock(m.ino, b)} :: n <= b < DIRECT ==> DirectBlock(m.ino, b) != t)
  }

  lemma FreshEarlier(m0: Image, m: Image, x: nat, fid: nat, total: nat)
    requires total <= 4096 && |m0.bat| == 128 && |m.bat| == 128 && Grew(m0, m, fid, total, Nothing)
             && Fresh(m, x, total)
    ensures Fresh(m0, x, total)
  {
    hide Bit;
  }

  lemma FreeKeptTrans(m0: Image, m1: Image, m2: Image, fid: nat, total: nat)
    requires total <= 4096 && |m0.bat| == 128 && |m1.bat| == 128 && |m2.bat| == 128
    requires FreeKept(m0, m1, total) && FreeKept(m1, m2, total) && Grew(m1, m2, fid, total, Nothing)
    ensures FreeKept(m0, m2, total)
  {
    hide Bit;
  }

  /** The bits of direct pointers from..to are set. */
  ghost predicate TakenDirect(m: Image, from: nat, to: nat)
    requires |m.bat| == 128
  {
    forall b {:trigger DirectBlock(m.ino, b)} :: from <= b < to && b < DIRECT ==>
      DirectBlock(m.ino, b) < 4096 && Bit(m.bat, DirectBlock(m.ino, b))
  }

  lemma DirectTaken(m0: Image, m: Image, fid: nat, n: nat, cur: nat, total: nat)
    requires Growing(m0, m, fid, n, cur, total, Nothing) && cur <= DIRECT
    ensures TakenDirect(m, n, cur)
  {
    hide Bit; hide FreeCount; hide Cost; hide Grew; hide Kept; hide Zeroed;
    forall b {:trigger DirectBlock(m.ino, b)} | n <= b < cur
      ensures DirectBlock(m.ino, b) < 4096 && Bit(m.bat, DirectBlock(m.ino, b))
    {
      assert Holds(m.own, Ptr(m.d, m.ino, m.di, b), Role(fid, Data(b)));
    }
  }

  /** A table found no block for itself, or for one of its entries; it was not written. */
  ghost predicate TableRanOut(m0: Image, m: Image, fid: nat, todbl: int, offset: nat, total: nat)
    requires -1 <= todbl < SINDIR && total <= 4096 && |m0.bat| == 128 && |m.bat| == 128
  {
    && Grew(m0, m, fid, total, Nothing) && OnePointerSet(m0.ino, m0.di, m.ino, m.di, todbl)
    && (offset > 0 ==> m.ino == m0.ino && m.di == m0.di)
    && (todbl == -1 && offset == 0 ==>
          if FreeCount(m0.bat, total) == 0 then m.ino[8] == NONE
          else Fresh(m0, m.ino[8], total) && m.ino[8] < |m.d| && m.ino[8] < |m0.d| && m.d[m.ino[8]] == m0.d[m.ino[8]])
  }

  lemma NoTable(m0: Image, m1: Image, fid: nat, todbl: int, offset: nat, total: nat)
    requires -1 <= todbl < SINDIR && total <= 4096 && |m0.bat| == 128 && |m1.bat| == 128
             && Grew(m0, m1, fid, total, Nothing)
    requires OnePointerSet(m0.ino, m0.di, m1.ino, m1.di, todbl) && offset == 0 && FreeCount(m0.bat, total) == 0
    requires todbl == -1 ==> m1.ino[8] == NONE
    ensures TableRanOut(m0, m1, fid, todbl, offset, total)
  {
    hide Bit; hide FreeCount; hide Grew;
  }

  lemma NoEntry(m0: Image, m1: Image, m2: Image, fid: nat, todbl: int, offset: nat, t: nat, total: nat)
    requires -1 <= todbl < SINDIR && |m2.bat| == 128 && TableFound(m0, m1, fid, todbl, offset, t, total)
    requires Grew(m1, m2, fid, total, Nothing) && m2.ino == m1.ino && m2.di == m1.di
    requires m1.d == m0.d && (offset == 0 ==> Fresh(m0, t, total))
    requires offset == 0 ==> FreeCount(m0.bat, total) > 0
    ensures TableRanOut(m0, m2, fid, todbl, offset, total)
  {
    hide Bit; hide FreeCount;
    GrewTrans(m0, m1, m2, fid, total, Nothing, Nothing);
    assert m2.d[t] == m1.d[t];
  }

  /** Growing a file without a table by num runs out within the direct blocks and the single-indirect table. */
  predicate LowFails(n: nat, num: nat, f: nat) {
    n <= DIRECT && f < Cost(LowEnd(n + num)) - Cost(n)
  }

  /** Growing from n0 to n blocks ends within the last table the file has: it needs data blocks only. */
  predicate InLastTable(n0: nat, n: nat) {
    n0 > DIRECT && (n0 - DIRECT) % SINDIR != 0 && n <= DIRECT + SINDIR * ((n0 - DIRECT) / SINDIR + 1)
  }

  /** Growing by num within the last table runs out. */
  predicate TailFails(n: nat, num: nat, f: nat) {
    InLastTable(n, n + num) && f < num
  }

  lemma InLastCost(n0: nat, n: nat)
    requires n0 <= n && InLastTable(n0, n)
    ensures Cost(n) - Cost(n0) == n - n0 && (n <= DIRECT + SINDIR <==> n0 <= DIRECT + SINDIR)
    ensures n0 > DIRECT && 0 < (n0 - DIRECT) % SINDIR && n - n0 <= SINDIR - (n0 - DIRECT) % SINDIR
  {
    assert Tables(n) == Tables(n0);
  }

  /** Then blocks in use and buffers are as before. */
  ghost predicate AsBefore(m0: Image, m: Image, fid: nat, total: nat)
    requires total <= 4096 && |m0.bat| == 128 && |m.bat| == 128
  {
    Grew(m0, m, fid, total, Nothing) && m.ino == m0.ino && m.di == m0.di
  }

  /** ... where di is the double-indirect block, loaded in a file that has one. */
  ghost predicate TailKept(m0: Image, m: Image, di: WordBlock, fid: nat, n: nat, total: nat)
    requires total <= 4096 && |m0.bat| == 128 && |m.bat| == 128
  {
    Grew(m0, m, fid, total, Nothing) && m.ino == m0.ino && (n > DIRECT + SINDIR ==> m.di == di)
  }

  lemma AsBeforeKept(m0: Image, m: Image, di: WordBlock, fid: nat, n: nat, total: nat)
    requires total <= 4096 && |m0.bat| == 128 && |m.bat| == 128 && AsBefore(m0.(di := di), m, fid, total)
    ensures TailKept(m0, m, di, fid, n, total)
  {
  }

  lemma TailRanOut(m0: Image, m: Image, fid: nat, todbl: int, offset: nat, total: nat)
    requires -1 <= todbl < SINDIR && total <= 4096 && |m0.bat| == 128 && |m.bat| == 128
    requires TableRanOut(m0, m, fid, todbl, offset, total)
    ensures offset > 0 ==> AsBefore(m0, m, fid, total)
  {
    hide Grew;
  }

  lemma LowFailsFails(n: nat, num: nat, f: nat)
    ensures LowFails(n, num, f) ==> f < Cost(n + num) - Cost(n)
  {
    if LowFails(n, num, f) {
      CostMonotone(LowEnd(n + num), n + num);
    }
  }

  /** The double-indirect buffer plays no part. */
  lemma RanOutBuffers(m0: Image, m: Image, m': Image, fid: nat, n: nat, f: nat, total: nat)
    requires total <= 4096 && |m0.bat| == 128 && |m.bat| == 128
    requires m' == m.(di := m'.di) && RanOut(m0, m, fid, n, f, total)
    ensures forall di0: WordBlock :: RanOut(m0.(di := di0), m', fid, n, f, total)
  {
    hide Bit;
  }

  /**
   Before AllocBlocks starts: the first block of an empty file and the double-indirect block are all that was
   taken.
  */
  ghost predicate HeadFresh(m0: Image, m: Image, n0: nat, n: nat, total: nat)
    requires total <= 4096 && |m0.bat| == 128 && |m.bat| == 128
  {
    && FreeKept(m0, m, total) && SameDirect(m0.ino, m.ino, n0) && m.ino[8] == m0.ino[8]
    && FreshDirect(m0, m.ino, n0, n, total) && TakenDirect(m, n0, n)
  }

  lemma HeadFreshStart(m: Image, n: nat, total: nat)
    requires total <= 4096 && |m.bat| == 128
    ensures HeadFresh(m, m, n, n, total)
  {
    hide Bit;
  }

  lemma HeadFreshFirst(m0: Image, m: Image, r: Word, total: nat)
    requires total <= 4096 && |m0.bat| == 128 && |m.bat| == 128 && FreeKept(m0, m, total) && Fresh(m0, r, total)
    requires m.ino == m0.ino[1 := r] && Bit(m.bat, r)
    ensures HeadFresh(m0, m, 0, 1, total)
  {
    hide Bit; hide FreeKept;
  }

  lemma HeadFreshDouble(m0: Image, m1: Image, m: Image, n0: nat, n: nat, r: Word, fid: nat, total: nat)
    requires total <= 4096 && |m0.bat| == 128 && |m1.bat| == 128 && |m.bat| == 128
    requires HeadFresh(m0, m1, n0, n, total) && FreeKept(m1, m, total) && Grew(m1, m, fid, total, Nothing)
             && m.ino == m1.ino[9 := r]
    ensures HeadFresh(m0, m, n0, n, total)
  {
    hide Bit; hide FreeKept;
    FreeKeptTrans(m0, m1, m, fid, total);
    assert forall b {:trigger DirectBlock(m.ino, b)} :: 0 <= b < DIRECT ==>
             DirectBlock(m.ino, b) == DirectBlock(m1.ino, b);
    TakenStays(m1, m, n0, n, fid, total);
  }

  lemma TakenStays(m: Image, m': Image, from: nat, to: nat, fid: nat, total: nat)
    requires total <= 4096 && |m.bat| == 128 && |m'.bat| == 128 && TakenDirect(m, from, to)
             && Grew(m, m', fid, total, Nothing)
    requires forall b {:trigger DirectBlock(m'.ino, b)} :: 0 <= b < DIRECT ==>
               DirectBlock(m'.ino, b) == DirectBlock(m.ino, b)
    requires forall b {:trigger DirectBlock(m.ino, b)} :: from <= b < to && b < DIRECT ==> DirectBlock(m.ino, b) < total
    ensures TakenDirect(m', from, to)
  {
    hide Bit;
  }

  lemma LowStart(m: Image, fid: nat, n: nat, total: nat)
    requires total <= 4096 && |m.bat| == 128
    ensures FreeKept(m, m, total) && SameDirect(m.ino, m.ino, n)
    ensures n >= DIRECT ==> FreshDirect(m, m.ino, n, DIRECT, total) && TakenDirect(m, n, DIRECT)
  {
    hide Bit;
  }

  /** The low part fails in the single-indirect table. */
  lemma LowRanOut(m0: Image, m1: Image, m2: Image, fid: nat, n: nat, f: nat, total: nat)
    requires Growing(m0, m1, fid, n, DIRECT, total, Nothing)
    requires FreeKept(m0, m1, total) && SameDirect(m0.ino, m1.ino, n) && FreshDirect(m0, m1.ino, n, DIRECT, total)
             && TakenDirect(m1, n, DIRECT)
    requires |m2.bat| == 128 && TableRanOut(m1, m2, fid, -1, 0, total) && FreeCount(m0.bat, total) == f
    ensures RanOut(m0, m2, fid, n, f, total)
  {
    hide Bit; hide FreeCount; hide TreeCore; hide Kept; hide Zeroed; hide Fresh; hide FreeKept; hide Grew;
    RanOutInTable(m0, m1, m2, fid, n, f, total);
  }

  lemma FreeKeptStart(m: Image, total: nat)
    requires total <= 4096 && |m.bat| == 128
    ensures FreeKept(m, m, total)
  {
  }

  /** Direct pointer i gets no block. */
  lemma RanOutDirect(m0: Image, m: Image, m': Image, fid: nat, n: nat, i: nat, f: nat, total: nat)
    requires Growing(m0, m, fid, n, i, total, Nothing) && n <= i < DIRECT && |m'.bat| == 128
             && Grew(m0, m', fid, total, Nothing)
    requires FreeCount(m0.bat, total) == f && FreeCount(m.bat, total) == 0
    requires SameDirect(m0.ino, m.ino, n) && FreshDirect(m0, m.ino, n, i, total)
    requires m'.ino == m.ino[1 + i := NONE]
    ensures RanOut(m0, m', fid, n, f, total)
  {
    hide Bit; hide FreeCount; hide Grew; hide TreeCore; hide Kept; hide Zeroed; hide Fresh;
    assert forall b {:trigger DirectBlock(m'.ino, b)} :: 0 <= b < i ==> DirectBlock(m'.ino, b) == DirectBlock(m.ino, b);
  }

  /** One more direct pointer. */
  lemma FreshDirectNext(m0: Image, m: Image, ino0: WordBlock, ino: WordBlock, fid: nat, from: nat, i: nat, total: nat)
    requires total <= 4096 && |m0.bat| == 128 && |m.bat| == 128 && Grew(m0, m, fid, total, Nothing)
    requires i < DIRECT && FreshDirect(m0, ino0, from, i, total) && ino == ino0[1 + i := ino[1 + i]]
    requires Fresh(m, DirectBlock(ino, i), total)
    ensures FreshDirect(m0, ino, from, i + 1, total) && SameDirect(ino0, ino, i)
  {
    hide Bit;
    FreshEarlier(m0, m, DirectBlock(ino, i), fid, total);
    assert forall b {:trigger DirectBlock(ino, b)} :: 0 <= b < i ==> DirectBlock(ino, b) == DirectBlock(ino0, b);
  }

  /** The direct blocks are there, and the single-indirect table runs out. */
  lemma RanOutInTable(m0: Image, m1: Image, m2: Image, fid: nat, n: nat, f: nat, total: nat)
    requires Sound(m0, total) && Sound(m1, total) && |m2.bat| == 128
    requires Grew(m0, m1, fid, total, Nothing) && Grew(m1, m2, fid, total, Nothing) && FreeKept(m0, m1, total)
    requires SameDirect(m0.ino, m1.ino, n) && FreshDirect(m0, m1.ino, n, DIRECT, total)
             && m2.ino == m1.ino[8 := m2.ino[8]]
    requires TakenDirect(m1, n, DIRECT)
    requires n <= DIRECT <= n + f && (n + f == DIRECT ==> m2.ino[8] == NONE)
    requires n + f > DIRECT ==>
               Fresh(m1, m2.ino[8], total) && m2.ino[8] < |m2.d| && m2.d[m2.ino[8]] == m1.d[m2.ino[8]]
    ensures RanOut(m0, m2, fid, n, f, total)
  {
    hide Bit;
    GrewTrans(m0, m1, m2, fid, total, Nothing, Nothing);
    assert forall b {:trigger DirectBlock(m2.ino, b)} :: 0 <= b < DIRECT ==>
             DirectBlock(m2.ino, b) == DirectBlock(m1.ino, b);
    if n + f > DIRECT {
      FreshEarlier(m0, m1, m2.ino[8], fid, total);
    }
  }

  /** Growth that went n0 to n before it ran out. */
  lemma RanOutLater(m0: Image, m1: Image, m2: Image, fid: nat, n0: nat, n: nat, f: nat, total: nat)
    requires Sound(m0, total) && Sound(m1, total) && |m2.bat| == 128 && n0 <= n <= DIRECT
    requires Grew(m0, m1, fid, total, Nothing) && FreeKept(m0, m1, total) && RanOut(m1, m2, fid, n, f, total)
    requires SameDirect(m0.ino, m1.ino, n0) && FreshDirect(m0, m1.ino, n0, n, total) && m1.ino[8] == m0.ino[8]
    requires TakenDirect(m1, n0, n)
    ensures RanOut(m0, m2, fid, n0, f + (n - n0), total)
  {
    hide Bit;
    GrewTrans(m0, m1, m2, fid, total, Nothing, Nothing);
    var k := StopsAt(n, f);
    assert k == StopsAt(n0, f + (n - n0));
    forall b {:trigger DirectBlock(m2.ino, b)} | n <= b < k && b < DIRECT
      ensures Fresh(m0, DirectBlock(m2.ino, b), total)
    {
      FreshEarlier(m0, m1, DirectBlock(m2.ino, b), fid, total);
    }
    assert forall b {:trigger DirectBlock(m2.ino, b)} :: 0 <= b < n && b < DIRECT ==>
             DirectBlock(m2.ino, b) == DirectBlock(m1.ino, b);
    if k > DIRECT {
      FreshEarlier(m0, m1, m2.ino[8], fid, total);
    }
  }
}
