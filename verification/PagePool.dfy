/**
 Physical page pool: a bitmap of reserved pages with a separately kept count of
 the free ones. Each method is one region under the pool's spinlock.
*/
module PagePools {
  import opened Bitmaps
  import Words

  const PAGE_SIZE := 4096

  class PagePool {
    const pages: Bitmap
    const numPages: nat
    const staticEnd: nat
    var numFreePages: int
    /** The pages given out by GetPhysPage and not yet freed. */
    ghost var handedOut: set<nat>

    ghost predicate Valid()
      reads this, pages
    {
      && WordsFor(numPages) <= |pages.words|
      && 0 < staticEnd <= numPages
      && numFreePages == FreeCount(pages.words, numPages)
      && (forall k :: 0 <= k < numPages ==> (Bit(pages.words, k) <==> k < staticEnd || k in handedOut))
      && (forall k :: k in handedOut ==> staticEnd <= k < numPages)
    }

    /** The kernel's reserved pages come first; the reservation holds at least the bitmap itself. */
    constructor (bitmap: Bitmap, total: nat, reserved: nat)
      requires WordsFor(total) <= |bitmap.words| && 0 < reserved <= total
      modifies bitmap
      ensures Valid() && handedOut == {} && pages == bitmap && numPages == total && staticEnd == reserved
    {
      pages, numPages, staticEnd := bitmap, total, reserved;
      numFreePages := total - reserved;
      handedOut := {};
      new;
      pages.Init(numPages);
      AllClearCount(pages.words, numPages);
      var i := 0;
      while i < staticEnd
        invariant 0 <= i <= staticEnd
        invariant numFreePages == numPages - staticEnd && handedOut == {}
        invariant WordsFor(numPages) <= |pages.words|
        invariant forall k :: 0 <= k < numPages ==> (Bit(pages.words, k) <==> k < i)
        invariant FreeCount(pages.words, numPages) == numPages - i
      {
        FreeCountWithBit(pages.words, i, true, numPages);
        pages.Set(i, true);
        i := i + 1;
      }
    }

    /** Address of the lowest free page, now reserved; 0 exactly when no page is free. */
    method GetPhysPage() returns (addr: nat)
      requires Valid()
      modifies this, pages
      ensures Valid()
      ensures addr == 0 <==> old(numFreePages) == 0
      ensures addr == 0 ==> handedOut == old(handedOut) && numFreePages == 0 && pages.words == old(pages.words)
      ensures addr != 0 ==> var p := addr / PAGE_SIZE;
                addr % PAGE_SIZE == 0 && staticEnd <= p < numPages && p !in old(handedOut)
                && handedOut == old(handedOut) + {p} && numFreePages == old(numFreePages) - 1
                && forall k :: staticEnd <= k < p ==> k in old(handedOut)
    {
      FreeCountZero(pages.words, numPages);
      var i: int;
      if numFreePages > 0 {
        i := pages.FindnSet(numPages);
        numFreePages := numFreePages - 1;
        assert i >= 0 && numFreePages >= 0;   // the kernel's own assertion
        FreeCountWithBit(old(pages.words), i, true, numPages);
        BitsWithBit(old(pages.words), i, true);
        handedOut := handedOut + {i};
        assert i * PAGE_SIZE / PAGE_SIZE == i;
      } else {
        i := 0;
      }
      addr := i * PAGE_SIZE;
    }

    /** Frees one page that is out. The kernel's two assertions hold for every such call. */
    method FreePhysPage(physAddr: nat)
      requires Valid() && physAddr / PAGE_SIZE in handedOut
      modifies this, pages
      ensures Valid()
      ensures handedOut == old(handedOut) - {physAddr / PAGE_SIZE}
      ensures numFreePages == old(numFreePages) + 1
    {
      var i := physAddr / PAGE_SIZE;
      assert i >= staticEnd;                  // the kernel's own assertion
      var bit := pages.Get(i);
      assert bit == 1;                        // the kernel's own assertion
      FreeCountWithBit(pages.words, i, false, numPages);
      pages.Set(i, false);
      numFreePages := numFreePages + 1;
      handedOut := handedOut - {i};
    }

    /** A page taken and given back leaves every bit and the counter as they were. */
    method TakeAndReturn()
      requires Valid() && numFreePages > 0
      modifies this, pages
      ensures Valid() && handedOut == old(handedOut) && numFreePages == old(numFreePages)
    {
      var a := GetPhysPage();
      FreePhysPage(a);
    }
  }

  lemma {:induction false} AllClearCount(ws: seq<Words.Word>, l: nat)
    requires l <= 32 * |ws| && forall k :: 0 <= k < l ==> !Bit(ws, k)
    ensures FreeCount(ws, l) == l
  {
    if l > 0 {
      AllClearCount(ws, l - 1);
    }
  }

  /**
   The counter is the number of pages that are neither reserved by the kernel nor handed out:
   the identity behind Valid, for any bitmap.
  */
  lemma {:induction false} FreeCountByComplement(ws: seq<Words.Word>, l: nat, staticEnd: nat, out: set<nat>)
    requires l <= 32 * |ws| && staticEnd <= l
    requires forall k :: k in out ==> staticEnd <= k < l
    requires forall k :: 0 <= k < l ==> (Bit(ws, k) <==> k < staticEnd || k in out)
    ensures FreeCount(ws, l) == l - staticEnd - |out|
  {
    hide Bit;
    if l == staticEnd {
      assert out == {};
      FreeCountZero(ws, l);
    } else if l - 1 in out {
      FreeCountByComplement(ws, l - 1, staticEnd, out - {l - 1});
    } else {
      FreeCountByComplement(ws, l - 1, staticEnd, out);
    }
  }
}
