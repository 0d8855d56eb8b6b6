/**
 The page table as a map from virtual pages to frames. An entry holds a pair of pages, the even
 and the odd one of a page pair number, as the translation hardware wants it.
*/
module PageTables {
  import opened PagePools

  const PAGETABLE_ENTRIES := 340
  const PAGE := 4096

  /** A 32-bit address. */
  type Address = x: int | 0 <= x < 0x1_0000_0000

  /** Frame number, write enable and valid bit of one page. */
  datatype Half = Half(pfn: nat, dirty: bool, valid: bool, global: bool)

  datatype Entry = Entry(vpn2: nat, asid: nat, even: Half, odd: Half)

  /** What a virtual page is mapped to. */
  datatype Mapping = Mapping(pfn: nat, writable: bool)

  datatype Outcome = Done | PanicRemap | PanicFull | PanicUnmapped

  function Page(a: Address): nat {
    a / PAGE
  }

  function IsOdd(vpn: nat): bool {
    vpn % 2 == 1
  }

  function HalfOf(e: Entry, vpn: nat): Half {
    if IsOdd(vpn) then e.odd else e.even
  }

  function WithHalf(e: Entry, vpn: nat, h: Half): Entry {
    if IsOdd(vpn) then e.(odd := h) else e.(even := h)
  }

  /** Entry e maps page vpn. */
  predicate Maps(e: Entry, vpn: nat) {
    e.vpn2 == vpn / 2 && HalfOf(e, vpn).valid
  }

  function MappingOf(e: Entry, vpn: nat): Mapping {
    Mapping(HalfOf(e, vpn).pfn, HalfOf(e, vpn).dirty)
  }

  /** The first of n entries with a page pair number; n if there is none. */
  function Find(es: seq<Entry>, n: nat, vpn2: nat): (i: nat)
    requires n <= |es|
    ensures i <= n && (i < n ==> es[i].vpn2 == vpn2)
    ensures forall j :: 0 <= j < i ==> es[j].vpn2 != vpn2
  {
    if n == 0 then 0
    else
      var i := Find(es, n - 1, vpn2);
      if i < n - 1 then i else if es[n - 1].vpn2 == vpn2 then n - 1 else n
  }

  /** The map the table stands for. */
  ghost function Pages(es: seq<Entry>, n: nat): map<nat, Mapping>
    requires n <= |es|
  {
    map v: nat | v < 0x10_0000 && IsMapped(es, n, v) :: MappingOf(es[Find(es, n, v / 2)], v)
  }

  predicate IsMapped(es: seq<Entry>, n: nat, v: nat)
    requires n <= |es|
  {
    var i := Find(es, n, v / 2);
    i < n && HalfOf(es[i], v).valid
  }

  /** No page pair has two entries. */
  ghost predicate Distinct(es: seq<Entry>, n: nat)
    requires n <= |es|
  {
    forall i, j :: 0 <= i < j < n ==> es[i].vpn2 != es[j].vpn2
  }

  lemma FindUnique(es: seq<Entry>, n: nat, i: nat)
    requires n <= |es| && Distinct(es, n) && i < n
    ensures Find(es, n, es[i].vpn2) == i
  {
  }

  /** Changing one half of an entry leaves what is found. */
  lemma {:induction false} FindSame(es: seq<Entry>, es': seq<Entry>, n: nat, vpn2: nat)
    requires n <= |es| && n <= |es'| && forall j :: 0 <= j < n ==> es'[j].vpn2 == es[j].vpn2
    ensures Find(es', n, vpn2) == Find(es, n, vpn2)
  {
    if n > 0 {
      FindSame(es, es', n - 1, vpn2);
    }
  }

  lemma PairsAndHalves(v: nat, w: nat)
    ensures v / 2 == w / 2 && IsOdd(v) == IsOdd(w) ==> v == w
  {
  }

  /** Setting the half of page v in its entry sets the mapping of v and of no other page. */
  lemma HalfSet(es: seq<Entry>, n: nat, i: nat, v: nat, h: Half)
    requires n <= |es| && Distinct(es, n) && i < n && es[i].vpn2 == v / 2 && v < 0x10_0000 && h.valid
    ensures Distinct(es[i := WithHalf(es[i], v, h)], n)
    ensures Pages(es[i := WithHalf(es[i], v, h)], n) == Pages(es, n)[v := Mapping(h.pfn, h.dirty)]
  {
    hide Find;
    var es' := es[i := WithHalf(es[i], v, h)];
    FindUnique(es, n, i);
    forall w: nat | w < 0x10_0000
      ensures w != v ==> (IsMapped(es', n, w) <==> IsMapped(es, n, w))
      ensures w == v ==> IsMapped(es', n, w) && MappingOf(es'[Find(es', n, w / 2)], w) == Mapping(h.pfn, h.dirty)
      ensures w != v && IsMapped(es, n, w) ==>
                MappingOf(es'[Find(es', n, w / 2)], w) == MappingOf(es[Find(es, n, w / 2)], w)
    {
      FindSame(es, es', n, w / 2);
      PairsAndHalves(v, w);
    }
  }

  /** A new entry for the pair of v with only the half of v valid adds just v. */
  lemma EntryAdded(es: seq<Entry>, n: nat, e: Entry, v: nat)
    requires n < |es| && Distinct(es, n) && Find(es, n, v / 2) == n && e.vpn2 == v / 2 && v < 0x10_0000
    requires HalfOf(e, v).valid && (forall w: nat :: w / 2 == v / 2 && w != v ==> !HalfOf(e, w).valid)
    ensures Distinct(es[n := e], n + 1)
    ensures Pages(es[n := e], n + 1) == Pages(es, n)[v := MappingOf(e, v)]
  {
    var es' := es[n := e];
    forall w: nat | w < 0x10_0000
      ensures w != v ==> (IsMapped(es', n + 1, w) <==> IsMapped(es, n, w))
      ensures w == v ==> IsMapped(es', n + 1, w) && MappingOf(es'[Find(es', n + 1, w / 2)], w) == MappingOf(e, v)
      ensures w != v && IsMapped(es, n, w) ==>
                MappingOf(es'[Find(es', n + 1, w / 2)], w) == MappingOf(es[Find(es, n, w / 2)], w)
    {
      FindSame(es, es', n, w / 2);
    }
  }

  /** One of the first n entries is for the pair of page v. */
  ghost predicate HasPair(es: seq<Entry>, n: nat, v: nat)
    requires n <= |es|
  {
    exists i :: 0 <= i < n && es[i].vpn2 == v / 2
  }

  /** The first n entries are for one address space only: no page in them is marked as valid in all. */
  ghost predicate OwnSpace(es: seq<Entry>, n: nat, asid: nat)
    requires n <= |es|
  {
    forall i :: 0 <= i < n ==>
      es[i].asid == asid && (es[i].even.valid ==> !es[i].even.global) && (es[i].odd.valid ==> !es[i].odd.global)
  }

  lemma SpaceSet(es: seq<Entry>, n: nat, i: nat, v: nat, h: Half, asid: nat)
    requires n <= |es| && i < n && OwnSpace(es, n, asid) && !h.global
    ensures OwnSpace(es[i := WithHalf(es[i], v, h)], n, asid)
  {
  }

  class PageTable {
    const asid: nat
    var validCount: nat
    const entries: array<Entry>

    ghost predicate Valid()
      reads this, entries
    {
      entries.Length == PAGETABLE_ENTRIES && validCount <= PAGETABLE_ENTRIES && Distinct(entries[..], validCount)
      && OwnSpace(entries[..], validCount, asid % 0x100)
    }

    ghost function Contents(): map<nat, Mapping>
      reads this, entries
      requires Valid()
    {
      Pages(entries[..], validCount)
    }

    /** An empty table in a page of memory with unknown contents. */
    constructor (asid: nat, memory: array<Entry>)
      requires memory.Length == PAGETABLE_ENTRIES
      ensures Valid() && this.asid == asid && entries == memory && validCount == 0 && Contents() == map[]
    {
      this.asid, this.entries := asid, memory;
      validCount := 0;
    }

    /**
     Maps a virtual page to a physical one. The panic for re-mapping is for pages of the map, that for a full
     table for new pages whose pair has no entry once all are used, and any other page is mapped, in the
     entry of its pair or in a new one. A panic leaves the table as it is.
    */
    method Map(physAddr: Address, vaddr: Address, dirty: bool) returns (r: Outcome)
      requires Valid()
      modifies this`validCount, entries
      ensures Valid()
      ensures r == PanicRemap <==> Page(vaddr) in old(Contents())
      ensures r == PanicFull <==> Page(vaddr) !in old(Contents()) && old(validCount) == PAGETABLE_ENTRIES
                                  && !HasPair(old(entries[..]), old(validCount), Page(vaddr))
      ensures r == PanicRemap || r == PanicFull || r == Done
      ensures r == Done ==>
                && Contents() == old(Contents())[Page(vaddr) := Mapping(Page(physAddr), dirty)]
                && validCount == old(validCount)
                                 + (if HasPair(old(entries[..]), old(validCount), Page(vaddr)) then 0 else 1)
      ensures r != Done ==> validCount == old(validCount) && entries[..] == old(entries[..])
    {
      hide Pages; hide Distinct; hide Find;
      ghost var es := entries[..];
      var v := Page(vaddr);
      var h := Half(Page(physAddr), dirty, true, false);
      MappedMeans(es, validCount, v);
      var i := FindEntry(v / 2);
      if i < validCount {
        if HalfOf(entries[i], v).valid {
          return PanicRemap;
        }
        HalfSet(es, validCount, i, v, h);
        SpaceSet(es, validCount, i, v, h, asid % 0x100);
        entries[i] := WithHalf(entries[i], v, h);
        assert entries[..] == es[i := WithHalf(es[i], v, h)];
        return Done;
      }
      if validCount >= PAGETABLE_ENTRIES {
        return PanicFull;
      }
      var e := NewEntry(entries[validCount], v, asid % 0x100, h);
      NewEntryMaps(entries[validCount], v, asid % 0x100, h);
      EntryAdded(es, validCount, e, v);
      entries[validCount] := e;
      assert entries[..] == es[validCount := e];
      validCount := validCount + 1;
      return Done;
    }

    /** The entry of a page pair; validCount if there is none. */
    method FindEntry(vpn2: nat) returns (i: nat)
      requires entries.Length == PAGETABLE_ENTRIES && validCount <= PAGETABLE_ENTRIES
      ensures i == Find(entries[..], validCount, vpn2)
    {
      i := 0;
      while i < validCount
        invariant i <= validCount && forall j :: 0 <= j < i ==> entries[j].vpn2 != vpn2
      {
        if entries[i].vpn2 == vpn2 {
          FirstIsFound(entries[..], validCount, vpn2, i);
          return;
        }
        i := i + 1;
      }
      FirstIsFound(entries[..], validCount, vpn2, i);
    }

    /** Sets the write bit of a mapped page; a panic leaves the table as it is. */
    method SetDirty(vaddr: Address, dirty: bool) returns (r: Outcome)
      requires Valid()
      modifies entries
      ensures Valid() && r == if Page(vaddr) in old(Contents()) then Done else PanicUnmapped
      ensures r == Done ==>
                Contents() == old(Contents())[Page(vaddr) := old(Contents())[Page(vaddr)].(writable := dirty)]
      ensures r != Done ==> entries[..] == old(entries[..])
    {
      hide Pages; hide Distinct; hide Find;
      ghost var es := entries[..];
      var v := Page(vaddr);
      MappedMeans(es, validCount, v);
      var i := FindEntry(v / 2);
      if i < validCount && HalfOf(entries[i], v).valid {
        SpaceSet(es, validCount, i, v, HalfOf(es[i], v).(dirty := dirty), asid % 0x100);
        var h := HalfOf(entries[i], v).(dirty := dirty);
        HalfSet(es, validCount, i, v, h);
        entries[i] := WithHalf(entries[i], v, h);
        assert entries[..] == es[i := WithHalf(es[i], v, h)];
        return Done;
      }
      return PanicUnmapped;
    }

    /**
     The entry written to the hardware on a miss, for a mapped page; its pair is the only one
     that matches the address, and it translates the address as the map does.
    */
    method OnMiss(badVaddr: Address) returns (r: Outcome, i: nat)
      requires Valid()
      ensures r == if Page(badVaddr) in Contents() then Done else PanicUnmapped
      ensures r == Done ==> i < validCount && Translates(entries[i], badVaddr, Contents()[Page(badVaddr)])
      ensures r == Done ==> entries[i].asid == asid % 0x100
      ensures r == Done ==> forall j :: 0 <= j < validCount && Maps(entries[j], Page(badVaddr)) ==> j == i
    {
      var v := Page(badVaddr);
      MappedMeans(entries[..], validCount, v);
      i := FindEntry(v / 2);
      if i < validCount {
        var valid := EntryIsValid(entries[i], badVaddr);
        if valid {
          FrameAddress(entries[i], badVaddr);
          return Done, i;
        }
      }
      return PanicUnmapped, i;
    }
  }

  /** A new entry in a slot with old contents e: only the halves' fields the kernel writes are set. */
  function NewEntry(e: Entry, v: nat, asid: nat, h: Half): Entry {
    if IsOdd(v) then Entry(v / 2, asid, e.even.(valid := false), h)
    else Entry(v / 2, asid, h, e.odd.(valid := false))
  }

  lemma NewEntryMaps(e: Entry, v: nat, asid: nat, h: Half)
    requires h.valid
    ensures var r := NewEntry(e, v, asid, h);
            && r.vpn2 == v / 2 && HalfOf(r, v) == h
            && forall w: nat :: w / 2 == v / 2 && w != v ==> !HalfOf(r, w).valid
  {
  }

  lemma {:induction false} FirstIsFound(es: seq<Entry>, n: nat, vpn2: nat, i: nat)
    requires n <= |es| && i <= n && (i < n ==> es[i].vpn2 == vpn2) && forall j :: 0 <= j < i ==> es[j].vpn2 != vpn2
    ensures Find(es, n, vpn2) == i
  {
  }

  lemma MappedMeans(es: seq<Entry>, n: nat, v: nat)
    requires n <= |es| && v < 0x10_0000
    ensures v in Pages(es, n) <==> Find(es, n, v / 2) < n && HalfOf(es[Find(es, n, v / 2)], v).valid
    ensures v in Pages(es, n) ==> Pages(es, n)[v] == MappingOf(es[Find(es, n, v / 2)], v)
  {
  }

  /** The valid bit the hardware looks at. */
  function EntryIsValid(e: Entry, vaddr: Address): bool
    requires e.vpn2 == Page(vaddr) / 2
  {
    HalfOf(e, Page(vaddr)).valid
  }

  /** The physical address of the page vaddr is on. */
  function EntryPaddr(e: Entry, vaddr: Address): nat
    requires e.vpn2 == Page(vaddr) / 2
  {
    HalfOf(e, Page(vaddr)).pfn * PAGE
  }

  /**
   Entry e translates vaddr by mapping m, as the hardware does: bits 13 to 31 of the address are compared, bit
   12 picks the half, and the entry counts for its own address space only.
  */
  ghost predicate Translates(e: Entry, vaddr: Address, m: Mapping) {
    var h := if vaddr / 0x1000 % 2 == 0 then e.even else e.odd;
    && e.vpn2 == vaddr / 0x2000 && h.valid && !h.global && h.pfn == m.pfn && h.dirty == m.writable
    && EntryPaddr(e, vaddr) == 0x1000 * m.pfn
  }

  lemma FrameAddress(e: Entry, vaddr: Address)
    requires e.vpn2 == Page(vaddr) / 2
    ensures EntryPaddr(e, vaddr) / PAGE == HalfOf(e, Page(vaddr)).pfn && EntryPaddr(e, vaddr) % PAGE == 0
  {
  }

  /**
   Every address a of a page just mapped misses on an entry that translates it to the frame, and an address of
   any other page as before, if at all.
  */
  method MapThenMiss(table: PageTable, physAddr: Address, vaddr: Address, dirty: bool, a: Address)
    returns (r: Outcome, q: Outcome, i: nat)
    requires table.Valid()
    modifies table`validCount, table.entries
    ensures table.Valid()
    ensures r == Done && a / 0x1000 == vaddr / 0x1000 ==>
              q == Done && i < table.validCount
              && Translates(table.entries[i], a, Mapping(physAddr / 0x1000, dirty))
    ensures a / 0x1000 != vaddr / 0x1000 ==> (q == Done <==> a / 0x1000 in old(table.Contents()))
    ensures q == Done && a / 0x1000 != vaddr / 0x1000 ==>
              i < table.validCount && Translates(table.entries[i], a, old(table.Contents())[a / 0x1000])
  {
    hide Pages; hide Distinct; hide OwnSpace; hide HasPair;
    r := table.Map(physAddr, vaddr, dirty);
    q, i := table.OnMiss(a);
  }

  /** A new page table in a page from the pool; null exactly if no page is free. */
  method CreatePagetable(pool: PagePool, asid: nat, memory: array<Entry>) returns (table: PageTable?)
    requires pool.Valid() && memory.Length == PAGETABLE_ENTRIES
    modifies pool, pool.pages
    ensures pool.Valid()
    ensures table == null <==> old(pool.numFreePages) == 0
    ensures table == null ==> pool.handedOut == old(pool.handedOut)
    ensures table != null ==>
              fresh(table) && table.Valid() && table.entries == memory && table.asid == asid
              && table.Contents() == map[]
    ensures table != null ==>
              |pool.handedOut - old(pool.handedOut)| == 1 && pool.numFreePages == old(pool.numFreePages) - 1
  {
    var addr := pool.GetPhysPage();
    if addr == 0 {
      return null;
    }
    assert pool.handedOut - old(pool.handedOut) == {addr / PAGE_SIZE};
    table := new PageTable(asid, memory);
  }
}
