/** kalloc.c and vm.c: the page free list and the operations that build, grow,
    shrink, copy and free an address space. */
module PageTables {

  import opened Blocks
  import opened PageModel

  const PTE_W := 2
  const PTE_U := 4
  const PTE_WU := 6
  const KERNBASE := 0x8000_0000

  /** How many of the n pages from v0 on lie below the kernel's part. */
  function UserPart(v0: nat, n: nat): (k: nat)
    ensures k <= n
  {
    if v0 + n <= USER_PAGES then n else if v0 < USER_PAGES then USER_PAGES - v0 else 0
  }

  /** Pages that cover sz bytes: PGROUNDUP(sz) / PGSIZE. */
  function Pages(sz: nat): (n: nat) {
    (sz + PGSIZE - 1) / PGSIZE
  }

  lemma PagesExact(sz: nat)
    ensures sz <= PGSIZE * Pages(sz) < sz + PGSIZE
  {
    var x := sz + PGSIZE - 1;
    assert x == PGSIZE * (x / PGSIZE) + x % PGSIZE;
  }

  function ZeroData(): (c: Content) {
    Data(seq(PGSIZE, _ => 0))
  }

  // memlayout.h in pages: EXTMEM, PHYSTOP and DEVSPACE
  const EXT_PAGES := 256
  const PHYS_PAGES := 57344
  const DEV_PAGE := 1040384

  /** The kernel's part of every address space. data is the first page of the
      kernel's writable data. */
  ghost function KernelPte(v: nat, data: nat): (e: Pte) {
    if v < USER_PAGES then NoPte()
    else if v < USER_PAGES + EXT_PAGES then Pte(true, v - USER_PAGES, PTE_W)
    else if v < USER_PAGES + data then Pte(true, v - USER_PAGES, 0)
    else if v < USER_PAGES + PHYS_PAGES then Pte(true, v - USER_PAGES, PTE_W)
    else if v < DEV_PAGE then NoPte()
    else Pte(true, v, PTE_W)
  }

  /** d translates as the kernel map says for all pages below hi, and not at all
      from hi on. */
  ghost predicate KernelMapped(m: Memory, d: nat, data: nat, hi: nat) {
    forall u: nat :: u < ALL_PAGES ==> Lookup(m, d, u) == if u < hi then KernelPte(u, data) else NoPte()
  }

  /** Consecutive virtual pages from v0 on go to consecutive pages from page0 on. */
  ghost predicate MapsOn(m: Memory, d: nat, u: nat, v0: nat, page0: nat, flags: nat)
    requires v0 <= u
  {
    Translates(m, d, u, page0 + u - v0, flags)
  }

  /** An entry of kmap, in bytes. */
  datatype Kmap = Kmap(virt: nat, start: nat, end: nat, perm: nat)

  /** I/O space; the kernel's text; its data and the rest of memory; devices. */
  function KmapTable(data: nat): (ks: seq<Kmap>) {
    [Kmap(0x8000_0000, 0, 0x10_0000, PTE_W),
     Kmap(0x8010_0000, 0x10_0000, data * PGSIZE, 0),
     Kmap(0x8000_0000 + data * PGSIZE, data * PGSIZE, 0xE00_0000, PTE_W),
     Kmap(0xFE00_0000, 0xFE00_0000, 0x1_0000_0000, PTE_W)]
  }

  /** Page u of the address space lies in k. */
  predicate Covers(k: Kmap, u: nat) {
    k.start <= k.end && k.virt <= u * PGSIZE < k.virt + (k.end - k.start)
  }

  /** d translates every page that an entry of kmap covers to its physical page with
      the entry's permissions, and no other page. */
  ghost predicate KernelRanges(m: Memory, d: nat, data: nat) {
    && (forall i, u: nat :: 0 <= i < 4 && u < ALL_PAGES && Covers(KmapTable(data)[i], u) ==>
          var k := KmapTable(data)[i];
          Translates(m, d, u, (u * PGSIZE - k.virt + k.start) / PGSIZE, k.perm))
    && (forall u: nat :: u < ALL_PAGES && (forall i :: 0 <= i < 4 ==> !Covers(KmapTable(data)[i], u)) ==> !Lookup(m, d, u).present)
  }

  lemma KernelRangesAre(m: Memory, d: nat, data: nat)
    requires KernelMapped(m, d, data, ALL_PAGES) && EXT_PAGES < data < PHYS_PAGES
    ensures KernelRanges(m, d, data)
  {
    forall i, u: nat | 0 <= i < 4 && u < ALL_PAGES && Covers(KmapTable(data)[i], u)
      ensures var k := KmapTable(data)[i];
              Translates(m, d, u, (u * PGSIZE - k.virt + k.start) / PGSIZE, k.perm)
    {
      KernelRange(m, d, data, i, u);
    }
    forall u: nat | u < ALL_PAGES && forall i :: 0 <= i < 4 ==> !Covers(KmapTable(data)[i], u)
      ensures !Lookup(m, d, u).present
    {
      NoRange(data, u);
      hide Lookup;
    }
  }

  lemma KernelRange(m: Memory, d: nat, data: nat, i: nat, u: nat)
    requires KernelMapped(m, d, data, ALL_PAGES) && EXT_PAGES < data < PHYS_PAGES
    requires i < 4 && u < ALL_PAGES && Covers(KmapTable(data)[i], u)
    ensures var k := KmapTable(data)[i];
            Translates(m, d, u, (u * PGSIZE - k.virt + k.start) / PGSIZE, k.perm)
  {
    var k := KmapTable(data)[i];
    var page := if i < 3 then u - USER_PAGES else u;
    assert u * PGSIZE - k.virt + k.start == 4096 * page;
    assert (4096 * page) / 4096 == page;
    hide Lookup, Translates;
    LookupTranslates(m, d, u, page, k.perm);
  }

  lemma NoRange(data: nat, u: nat)
    requires EXT_PAGES < data < PHYS_PAGES && u < ALL_PAGES && forall i :: 0 <= i < 4 ==> !Covers(KmapTable(data)[i], u)
    ensures !KernelPte(u, data).present
  {
    assert !Covers(KmapTable(data)[0], u) && !Covers(KmapTable(data)[1], u) && !Covers(KmapTable(data)[2], u) && !Covers(KmapTable(data)[3], u);
  }

  class Kernel {
    var mem: Memory
    var freelist: nat
    ghost var free: seq<nat>
    ghost var owner: Owners

    ghost predicate Valid()
      reads this
    {
      PagesOk(mem, owner) && FreeOk(mem, owner, free, freelist)
    }

    /** Physical memory before kinit has put any page on the list. */
    constructor (pages: set<nat>)
      requires 0 !in pages
      ensures Valid() && free == [] && owner == map p | p in pages :: Other
    {
      mem := map p | p in pages :: Data([]);
      freelist := 0;
      free := [];
      owner := map p | p in pages :: Other;
      new;
      assert forall p :: p in owner ==> PageOk(mem, owner, p);
    }

    /** freerange: every page of the range goes on the list. */
    method Freerange(lo: nat, hi: nat)
      requires Valid() && lo <= hi && forall p :: lo <= p < hi ==> RoleIs(owner, p, Other)
      modifies this
      ensures Valid() && owner.Keys == old(owner).Keys
      ensures forall p :: p in owner ==> owner[p] == if lo <= p < hi then Free else old(owner)[p]
    {
      hide PagesOk, FreeOk;
      ghost var o := owner;
      var p := lo;
      while p < hi
        invariant lo <= p <= hi && Valid() && owner.Keys == o.Keys
        invariant forall q :: q in o ==> owner[q] == if lo <= q < p then Free else o[q]
      {
        assert RoleIs(o, p, Other);
        Kfree(p);
        p := p + 1;
      }
    }

    /** kalloc: the first page of the list, or null. */
    method Kalloc() returns (p: nat)
      requires Valid()
      modifies this`freelist, this`free, this`owner
      ensures Valid() && (p == 0 <==> old(free) == [])
      ensures p == 0 ==> owner == old(owner) && free == old(free) && freelist == old(freelist)
      ensures p != 0 ==> RoleIs(old(owner), p, Free) && owner == old(owner)[p := Other] && free == old(free)[1..]
    {
      hide PagesOk;
      p := freelist;
      FreeHead(mem, owner, free, freelist);
      if p != 0 {
        PopOk(mem, owner, free, freelist);
        LooseSame(mem, owner, p);
        freelist := mem[p].next;
        owner := owner[p := Other];
        free := free[1..];
      }
    }

    /** kfree: a page that nothing refers to goes to the front of the list. */
    method Kfree(p: nat)
      requires Valid() && RoleIs(owner, p, Other)
      modifies this
      ensures Valid() && owner == old(owner)[p := Free] && mem == old(mem)[p := Link(old(freelist))] && free == [p] + old(free)
    {
      hide PagesOk, FreeOk;
      PushOk(mem, owner, free, freelist, p);
      Loose(mem, owner, p, Link(freelist), Free);
      mem := mem[p := Link(freelist)];
      owner := owner[p := Free];
      free := [p] + free;
      freelist := p;
    }

    /** walkpgdir: the table that holds the entry for v, making it if asked to. */
    method Walk(d: nat, v: nat, alloc: bool) returns (t: nat)
      requires Valid() && RoleIs(owner, d, Dir) && v < ALL_PAGES
      modifies this
      ensures Valid() && RoleIs(owner, d, Dir) && Spaced(old(owner), owner, d) && SameData(old(mem), old(owner), mem, d)
      ensures forall u: nat :: u < ALL_PAGES ==> Lookup(mem, d, u) == old(Lookup(mem, d, u))
      ensures t != 0 ==> HasTable(mem, d, v / ENTRIES) && Entry(mem, d, v / ENTRIES).page == t
      ensures t != 0 && !old(HasTable(mem, d, v / ENTRIES)) ==> Entry(mem, d, v / ENTRIES) == Pte(true, t, PTE_WU) && old(owner)[t] == Free
      ensures t == 0 || !alloc ==> mem == old(mem) && owner == old(owner) && free == old(free) && freelist == old(freelist)
      ensures t == 0 ==> !HasTable(mem, d, v / ENTRIES)
      ensures forall q :: q in owner && owner[q].Leaf? ==> owner[q] == old(owner)[q]
    {
      hide PagesOk, FreeOk, Lookup;
      TableAt(mem, owner, d, v / ENTRIES);
      SameDataSelf(mem, owner, d);
      if mem[d].e[v / ENTRIES].present {
        t := mem[d].e[v / ENTRIES].page;
        PageNamed(mem, owner, t);
        return;
      }
      if !alloc {
        return 0;
      }
      t := Kalloc();
      if t == 0 {
        return;
      }
      MakeTable(d, v / ENTRIES, t);
    }

    /** The zeroed page t becomes the table of directory entry i. */
    method MakeTable(d: nat, i: nat, t: nat)
      requires Valid() && RoleIs(owner, d, Dir) && i < ENTRIES && RoleIs(owner, t, Other)
      requires IsTable(mem, d) && !Entry(mem, d, i).present
      modifies this`mem, this`owner
      ensures Valid() && mem == Tabled(old(mem), d, i, t, PTE_WU) && owner == old(owner)[t := Tab(d, i)]
      ensures HasTable(mem, d, i) && Entry(mem, d, i).page == t
      ensures forall u: nat :: u < ALL_PAGES ==> Lookup(mem, d, u) == old(Lookup(mem, d, u))
    {
      hide PagesOk, FreeOk, Lookup;
      ghost var m0, o0 := mem, owner;
      PageNamed(mem, owner, d);
      PageNamed(mem, owner, t);
      forall u: nat | u < ALL_PAGES
        ensures Lookup(Tabled(m0, d, i, t, PTE_WU), d, u) == Lookup(m0, d, u)
      {
        TabledLookup(m0, o0, d, i, t, PTE_WU, d, u);
      }
      TabledOk(mem, owner, d, i, t, PTE_WU);
      mem := mem[t := ZeroTable()];
      mem := SetEntry(mem, d, i, Pte(true, t, PTE_WU));
      owner := owner[t := Tab(d, i)];
      ListKept(m0, o0, free, freelist, mem, owner);
    }

    /** The body of mappages' loop: map v to the given page. A user page must be a
        held data page and becomes owned by the space. */
    method MapStep(d: nat, v: nat, page: nat, flags: nat) returns (ok: bool)
      requires Valid() && RoleIs(owner, d, Dir) && v < ALL_PAGES && !Lookup(mem, d, v).present
      requires v < USER_PAGES ==> RoleIs(owner, page, Other) && page in mem && mem[page].Data?
      modifies this
      ensures Valid() && RoleIs(owner, d, Dir)
      ensures forall u: nat :: u < ALL_PAGES ==> Lookup(mem, d, u) == if ok && u == v then Pte(true, page, flags) else old(Lookup(mem, d, u))
      ensures SameData(old(mem), old(owner), mem, d)
      ensures ok && v < USER_PAGES ==> RoleIs(owner, page, Leaf(d, v)) && Spaced(old(owner), owner[page := Other], d)
      ensures !ok || v >= USER_PAGES ==> Spaced(old(owner), owner, d)
      ensures forall q :: q in owner && owner[q].Leaf? && !(ok && v < USER_PAGES && q == page) ==> owner[q] == old(owner)[q]
    {
      hide PagesOk, FreeOk, Lookup;
      var t := Walk(d, v, true);
      if t == 0 {
        return false;
      }
      ok := true;
      ghost var m1, o1 := mem, owner;
      ghost var x := Pte(true, page, flags);
      TableAt(mem, owner, d, v / ENTRIES);
      forall u: nat | u < ALL_PAGES
        ensures Lookup(Mapped(m1, d, v, x), d, u) == if u == v then x else Lookup(m1, d, u)
      {
        MappedLookup(m1, o1, d, v, x, d, u);
      }
      if v < USER_PAGES {
        MapUser(mem, owner, d, v, page, flags);
        owner := owner[page := Leaf(d, v)];
      } else {
        MapKernel(mem, owner, d, v, x);
      }
      mem := SetEntry(mem, t, v % ENTRIES, Pte(true, page, flags));
      ListKept(m1, o1, free, freelist, mem, owner);
    }

    /** deallocuvm for one present entry: the page is freed and the entry cleared. */
    method FreeStep(d: nat, v: nat, t: nat)
      requires Valid() && RoleIs(owner, d, Dir) && v < USER_PAGES && HasTable(mem, d, v / ENTRIES)
      requires Entry(mem, d, v / ENTRIES).page == t && Lookup(mem, d, v).present
      modifies this
      ensures Valid() && Shrunk(old(owner), owner, d, v, v + 1) && SameDataBut(old(mem), old(owner), mem, d, v, v + 1)
      ensures forall u: nat :: u < ALL_PAGES ==> Lookup(mem, d, u) == if u == v then NoPte() else old(Lookup(mem, d, u))
    {
      hide PagesOk, FreeOk, Lookup;
      ghost var m0, o0 := mem, owner;
      var p := LookupIs(mem, d, v);
      UserEntry(mem, owner, d, v);
      TableAt(mem, owner, d, v / ENTRIES);
      UnmapUser(mem, owner, d, v);
      LeafOnly(mem, owner, d, v);
      mem := SetEntry(mem, t, v % ENTRIES, NoPte());
      ghost var m1 := mem;
      owner := owner[p := Other];
      ListKept(m0, o0, free, freelist, mem, owner);
      SameDataSelf(m0, o0, d);
      Kfree(p);
      forall u: nat | u < ALL_PAGES
        ensures Lookup(mem, d, u) == if u == v then NoPte() else Lookup(m0, d, u)
      {
        MappedLookup(m0, o0, d, v, NoPte(), d, u);
        LooseLookup(m1, o0[p := Other], p, mem[p], d, u);
      }
    }

    /** deallocuvm: every user page from newsz on is unmapped and freed, below
        oldsz. The walk skips a whole directory entry at once where there is no
        table. */
    method Deallocuvm(d: nat, oldsz: nat, newsz: nat) returns (sz: nat)
      requires Valid() && RoleIs(owner, d, Dir) && oldsz <= KERNBASE
      modifies this
      ensures Valid() && sz == if newsz >= oldsz then oldsz else newsz
      ensures Shrunk(old(owner), owner, d, Pages(sz), Pages(oldsz))
      ensures SameDataBut(old(mem), old(owner), mem, d, Pages(sz), Pages(oldsz))
      ensures NoneMapped(mem, d, Pages(sz), Pages(oldsz)) && OthersSame(old(mem), old(owner), mem, d)
      ensures forall u: nat :: u < ALL_PAGES && !(Pages(sz) <= u < Pages(oldsz)) ==> Lookup(mem, d, u) == old(Lookup(mem, d, u))
    {
      hide PagesOk, FreeOk, Lookup;
      ghost var m0, o0 := mem, owner;
      DataSelf(mem, owner, d, Pages(oldsz), Pages(oldsz));
      OthersKept(m0, o0, mem, d, Pages(oldsz), Pages(oldsz));
      if newsz >= oldsz {
        return oldsz;
      }
      var a := Pages(newsz);
      ghost var lo := a;
      DataSelf(mem, owner, d, lo, lo);
      while a * PGSIZE < oldsz
        invariant lo <= a && Valid() && RoleIs(owner, d, Dir)
        invariant Shrunk(o0, owner, d, lo, a) && SameDataBut(m0, o0, mem, d, lo, a)
        invariant NoneMapped(mem, d, lo, a)
        invariant forall u: nat :: u < ALL_PAGES && !(lo <= u < a && u < Pages(oldsz)) ==> Lookup(mem, d, u) == Lookup(m0, d, u)
        decreases Pages(oldsz) - a
      {
        assert a < Pages(oldsz) <= USER_PAGES;
        a := DeallocStep(m0, o0, d, lo, a);
      }
      assert Pages(oldsz) <= a;
      PastEnd(m0, o0, mem, owner, d, lo, Pages(oldsz), a);
      OthersKept(m0, o0, mem, d, lo, Pages(oldsz));
      return newsz;
    }

    /** One round of the loop; b is where the next round starts. */
    method DeallocStep(ghost m0: Memory, ghost o0: Owners, d: nat, ghost lo: nat, a: nat) returns (b: nat)
      requires Valid() && RoleIs(owner, d, Dir) && lo <= a < USER_PAGES
      requires Shrunk(o0, owner, d, lo, a) && SameDataBut(m0, o0, mem, d, lo, a) && NoneMapped(mem, d, lo, a)
      requires forall u: nat :: u < ALL_PAGES && !(lo <= u < a) ==> Lookup(mem, d, u) == Lookup(m0, d, u)
      modifies this
      ensures Valid() && RoleIs(owner, d, Dir) && a < b
      ensures Shrunk(o0, owner, d, lo, b) && SameDataBut(m0, o0, mem, d, lo, b) && NoneMapped(mem, d, lo, b)
      ensures forall u: nat :: u < ALL_PAGES && !(lo <= u < b) ==> Lookup(mem, d, u) == Lookup(m0, d, u)
      ensures forall u: nat :: a < u < b && u < ALL_PAGES ==> Lookup(mem, d, u) == Lookup(m0, d, u)
    {
      hide PagesOk, FreeOk, Lookup;
      ghost var m1, o1 := mem, owner;
      var t := Walk(d, a, false);
      if t == 0 {
        b := (a / ENTRIES + 1) * ENTRIES;
        SkipRange(m0, o0, mem, owner, d, lo, a, b);
      } else {
        b := a + 1;
        assert Lookup(mem, d, a) == Entry(mem, t, a % ENTRIES) by { LookupEntry(mem, d, a); }
        if mem[t].e[a % ENTRIES].present {
          FreeStep(d, a, t);
          ShrunkTwice(o0, o1, owner, d, lo, a, a + 1);
          SameDataButTwice(m0, o0, m1, o1, mem, d, lo, a, a + 1);
        } else {
          AbsentNoLeaf(mem, owner, d, a);
          ShrunkIdle(o0, owner, d, lo, a, b);
          WiderBut(m0, o0, mem, d, lo, a, b);
        }
      }
    }

    /** freevm: the user pages, then every table, then the directory. */
    method Freevm(d: nat)
      requires Valid() && RoleIs(owner, d, Dir)
      modifies this
      ensures Valid() && SpaceFreed(old(owner), owner, d) && OutsideSame(old(mem), old(owner), mem, d)
    {
      hide PagesOk, FreeOk, Lookup, InSpace;
      ghost var m0, o0 := mem, owner;
      var sz := Deallocuvm(d, KERNBASE, 0);
      ghost var m1, o1 := mem, owner;
      NoLeafLeft(m0, o0, m1, o1, d);
      FreeTables(d);
      ShrunkThenFreed(o0, o1, owner, d, USER_PAGES);
      OutsideTwice(m0, o0, m1, o1, mem, d);
    }

    /** freevm after deallocuvm. */
    method FreeTables(d: nat)
      requires Valid() && RoleIs(owner, d, Dir) && forall q :: q in owner ==> !(owner[q].Leaf? && owner[q].d == d)
      modifies this
      ensures Valid() && SpaceFreed(old(owner), owner, d) && OutsideSame(old(mem), old(owner), mem, d)
    {
      hide PagesOk, FreeOk, Lookup, InSpace, TablesFreed, SpaceFreed, OutsideSame;
      ghost var m1, o1 := mem, owner;
      TableAt(mem, owner, d, 0);
      OutsideSelf(mem, owner, d);
      TablesStart(owner, d);
      DissolvedOk(mem, owner, d);
      DissolvedList(mem, owner, free, freelist, d);
      owner := Dissolved(owner, d);
      var i := 0;
      while i < ENTRIES
        invariant i <= ENTRIES && Valid() && TablesFreed(o1, owner, d, i) && d in mem && mem[d] == m1[d]
        invariant OutsideSame(m1, o1, mem, d)
      {
        ghost var m2, o2 := mem, owner;
        TablesNext(m1, o1, owner, d, i);
        assert mem[d].e[i] == Entry(m1, d, i);
        if mem[d].e[i].present {
          FreedInside(o1, o2, d, i, mem[d].e[i].page);
          Kfree(mem[d].e[i].page);
          OutsideStep(m1, o1, m2, d, mem, mem[d].e[i].page);
        }
        i := i + 1;
      }
      ghost var m3 := mem;
      TablesEnd(m1, o1, owner, d);
      DirInside(o1, d);
      Kfree(d);
      OutsideStep(m1, o1, m3, d, mem, d);
    }

    /** mappages over any range that is not mapped yet. Pages mapped below the
        kernel's part must be held data pages, and go over to the space. When a
        table can not be made, the pages before it stay mapped. */
    method Mappages(d: nat, v0: nat, n: nat, page0: nat, flags: nat) returns (ok: bool, ghost done: nat)
      requires Valid() && RoleIs(owner, d, Dir) && n >= 1 && v0 + n <= ALL_PAGES
      requires NoneMapped(mem, d, v0, v0 + n) && AllHeld(mem, owner, page0, UserPart(v0, n))
      modifies this
      ensures Valid() && RoleIs(owner, d, Dir) && done <= n && (ok <==> done == n)
      ensures owner.Keys == old(owner).Keys
      ensures Joined(old(owner), owner, d, page0, v0, UserPart(v0, done)) && SameData(old(mem), old(owner), mem, d)
      ensures OthersSame(old(mem), old(owner), mem, d)
      ensures forall u: nat :: u < ALL_PAGES ==>
                Lookup(mem, d, u) == if v0 <= u < v0 + done then Pte(true, page0 + u - v0, flags) else old(Lookup(mem, d, u))
      ensures forall u: nat :: v0 <= u < v0 + done ==> MapsOn(mem, d, u, v0, page0, flags)
      ensures forall q :: q in owner && owner[q].Leaf? ==> owner[q] == old(owner)[q] || (page0 <= q < page0 + done && owner[q] == Leaf(d, v0 + q - page0))
    {
      hide PagesOk, FreeOk, Lookup, SameData, Spaced, Joined, Translates;
      ghost var m0, o0 := mem, owner;
      SameDataSelf(mem, owner, d);
      JoinedNone(owner, d, page0, v0);
      var a, pa, last := v0, page0, v0 + n - 1;
      while true
        invariant v0 <= a <= last && pa == page0 + a - v0 && Valid() && RoleIs(owner, d, Dir) && owner.Keys == o0.Keys
        invariant Joined(o0, owner, d, page0, v0, UserPart(v0, a - v0)) && SameData(m0, o0, mem, d)
        invariant forall u: nat :: u < ALL_PAGES ==>
                    Lookup(mem, d, u) == if v0 <= u < a then Pte(true, page0 + u - v0, flags) else Lookup(m0, d, u)
        invariant forall q :: q in owner && owner[q].Leaf? ==> owner[q] == o0[q] || (page0 <= q < pa && owner[q] == Leaf(d, v0 + q - page0))
        decreases last - a
      {
        ghost var m1, o1 := mem, owner;
        ghost var k := UserPart(v0, a - v0);
        StillHeld(m0, o0, m1, o1, d, page0, v0, k, UserPart(v0, n));
        ok := MapStep(d, a, pa, flags);
        ghost var more := if ok && a < USER_PAGES then 1 else 0;
        MapStepJoins(o1, owner, d, page0 + k, v0 + k, more);
        JoinedMore(m0, o0, m1, o1, mem, owner, d, page0, v0, k, more);
        if !ok || a == last {
          done := if ok then n else a - v0;
          OthersKept(m0, o0, mem, d, 0, 0);
          forall u: nat | v0 <= u < v0 + done
            ensures MapsOn(mem, d, u, v0, page0, flags)
          {
            LookupTranslates(mem, d, u, page0 + u - v0, flags);
          }
          return;
        }
        a, pa := a + 1, pa + 1;
      }
    }

    /** The four entries of kmap, in order. */
    method MapKernelPart(d: nat, data: nat) returns (ok: bool)
      requires Valid() && RoleIs(owner, d, Dir) && EXT_PAGES < data < PHYS_PAGES && NonePtes(mem, d)
      modifies this
      ensures Valid() && RoleIs(owner, d, Dir) && Spaced(old(owner), owner, d) && SameData(old(mem), old(owner), mem, d)
      ensures ok ==> KernelMapped(mem, d, data, ALL_PAGES)
    {
      hide PagesOk, FreeOk, Lookup, Spaced, SameData;
      ghost var m0, o0 := mem, owner;
      SameDataSelf(mem, owner, d);
      assert KernelMapped(mem, d, data, USER_PAGES);
      ok := MapOne(m0, o0, d, data, USER_PAGES, EXT_PAGES, 0, PTE_W);
      if !ok {
        return;
      }
      ok := MapOne(m0, o0, d, data, USER_PAGES + EXT_PAGES, data - EXT_PAGES, EXT_PAGES, 0);
      if !ok {
        return;
      }
      ok := MapOne(m0, o0, d, data, USER_PAGES + data, PHYS_PAGES - data, data, PTE_W);
      if !ok {
        return;
      }
      assert KernelMapped(mem, d, data, DEV_PAGE);
      ok := MapOne(m0, o0, d, data, DEV_PAGE, ALL_PAGES - DEV_PAGE, DEV_PAGE, PTE_W);
    }

    method MapOne(ghost m0: Memory, ghost o0: Owners, d: nat, ghost data: nat, v0: nat, n: nat, page0: nat, flags: nat) returns (ok: bool)
      requires Valid() && RoleIs(owner, d, Dir) && USER_PAGES <= v0 && n >= 1 && v0 + n <= ALL_PAGES
      requires KernelMapped(mem, d, data, v0) && Spaced(o0, owner, d) && SameData(m0, o0, mem, d)
      requires forall u: nat :: v0 <= u < v0 + n ==> KernelPte(u, data) == Pte(true, page0 + u - v0, flags)
      modifies this
      ensures Valid() && RoleIs(owner, d, Dir) && Spaced(o0, owner, d) && SameData(m0, o0, mem, d)
      ensures ok ==> KernelMapped(mem, d, data, v0 + n)
    {
      hide PagesOk, FreeOk, Lookup, Spaced, SameData, KernelPte;
      ghost var m1, o1 := mem, owner;
      ghost var done;
      ok, done := Mappages(d, v0, n, page0, flags);
      JoinedFew(o1, owner, d, page0, v0, UserPart(v0, done));
      SpacedTwice(o0, o1, owner, d);
      SameDataTwice(m0, o0, m1, o1, mem, d);
    }

    /** setupkvm: a directory with only the kernel's part, or null and no page
        lost. */
    method Setupkvm(data: nat) returns (d: nat)
      requires Valid() && EXT_PAGES < data < PHYS_PAGES
      modifies this
      ensures Valid()
      ensures d == 0 ==> owner == old(owner) && DataKept(old(mem), old(owner), mem)
      ensures d != 0 ==>
                && RoleIs(old(owner), d, Free) && RoleIs(owner, d, Dir) && Spaced(old(owner), owner, d)
                && DataKept(old(mem), old(owner), mem) && KernelMapped(mem, d, data, ALL_PAGES) && KernelRanges(mem, d, data)
    {
      hide PagesOk, FreeOk, Lookup, Spaced, SameData, KernelMapped, DataKept, KernelRanges;
      ghost var m0, o0 := mem, owner;
      KeptSelf(mem, owner);
      d := Kalloc();
      if d == 0 {
        return;
      }
      NewDir(mem, owner, d);
      NewDirList(mem, owner, free, freelist, d);
      FreeHasNoSpace(m0, o0, d);
      PageNamed(mem, owner, d);
      mem := mem[d := ZeroTable()];
      owner := owner[d := Dir];
      ZeroPtes(mem, d);
      NewSpaced(m0, o0, d);
      ghost var m1, o1 := mem, owner;
      var ok := MapKernelPart(d, data);
      SpacedTwice(o0, o1, owner, d);
      SameDataTwice(m0, o0, m1, o1, mem, d);
      KeptFrom(m0, o0, mem, d);
      if !ok {
        ghost var m2, o2 := mem, owner;
        Freevm(d);
        SpacedThenFreed(o0, o2, owner, d);
        KeptThenFreed(m0, o0, m2, o2, mem, d);
        d := 0;
      } else {
        KernelRangesAre(mem, d, data);
      }
    }

    /** kalloc, fill with c and map at v, or give the page back. */
    method AddPage(d: nat, v: nat, c: Content, flags: nat) returns (ok: bool)
      requires Valid() && RoleIs(owner, d, Dir) && v < USER_PAGES && !Lookup(mem, d, v).present && c.Data?
      modifies this
      ensures Valid() && RoleIs(owner, d, Dir) && Spaced(old(owner), owner, d) && SameData(old(mem), old(owner), mem, d)
      ensures forall u: nat :: u < ALL_PAGES && !(ok && u == v) ==> Lookup(mem, d, u) == old(Lookup(mem, d, u))
      ensures ok ==> Added(old(owner), mem, d, v, c, flags)
      ensures forall q :: q in owner && owner[q].Leaf? ==> owner[q] == old(owner)[q] || (ok && owner[q] == Leaf(d, v))
    {
      hide PagesOk, FreeOk, Lookup, Spaced, Joined, OthersSame;
      ghost var m0, o0 := mem, owner;
      SameDataSelf(mem, owner, d);
      var p := Kalloc();
      if p == 0 {
        return false;
      }
      PageNamed(mem, owner, p);
      Loose(mem, owner, p, c, Other);
      OtherList(mem, owner, free, freelist, p, c);
      mem := mem[p := c];
      assert owner[p := Other] == owner;
      ghost var m1, o1 := mem, owner;
      ghost var done;
      ok, done := Mappages(d, v, 1, p, flags);
      JoinedFew(o1, owner, d, p, v, UserPart(v, done));
      if !ok {
        ghost var m2, o2 := mem, owner;
        SpacedBack(o0, p, o2, d);
        LooseAll(m2, o2, p, Link(freelist), Free, d);
        Kfree(p);
      } else {
        SpacedAdd(o0, p, owner, d, v);
      }
    }

    /** allocuvm: zeroed pages from oldsz up to newsz. On failure what was added is
        taken away again, except for page tables, which stay with the space. */
    method Allocuvm(d: nat, oldsz: nat, newsz: nat) returns (sz: nat)
      requires Valid() && RoleIs(owner, d, Dir) && NoneMapped(mem, d, Pages(oldsz), Pages(newsz))
      modifies this
      ensures Valid() && RoleIs(owner, d, Dir) && Spaced(old(owner), owner, d) && SameData(old(mem), old(owner), mem, d)
      ensures OthersSame(old(mem), old(owner), mem, d)
      ensures newsz >= KERNBASE ==> sz == 0
      ensures newsz < KERNBASE && newsz < oldsz ==> sz == oldsz
      ensures oldsz <= newsz < KERNBASE ==> sz == 0 || sz == newsz
      ensures forall u: nat :: u < ALL_PAGES && !(Pages(oldsz) <= u < Pages(newsz)) ==> Lookup(mem, d, u) == old(Lookup(mem, d, u))
      ensures oldsz <= newsz && sz != 0 ==>
                AddedZeros(old(owner), mem, d, Pages(oldsz), Pages(newsz))
      ensures !(oldsz <= newsz && sz == newsz) ==>
                && NoneMapped(mem, d, Pages(oldsz), Pages(newsz))
                && forall q :: q in owner ==> owner[q] == old(owner)[q] || (old(owner)[q] == Free && owner[q].Tab? && owner[q].d == d)
    {
      hide PagesOk, FreeOk, Lookup, Spaced, SameData, InSpace, Added;
      ghost var m0, o0 := mem, owner;
      SameDataSelf(mem, owner, d);
      OthersKept(m0, o0, mem, d, 0, 0);
      if newsz >= KERNBASE {
        return 0;
      }
      if newsz < oldsz {
        return oldsz;
      }
      var a := Pages(oldsz);
      ghost var lo := a;
      while a * PGSIZE < newsz
        invariant lo <= a && (a <= Pages(newsz) || a == lo) && Valid() && RoleIs(owner, d, Dir)
        invariant Spaced(o0, owner, d) && SameData(m0, o0, mem, d)
        invariant forall u: nat :: u < ALL_PAGES && !(lo <= u < a) ==> Lookup(mem, d, u) == Lookup(m0, d, u)
        invariant AddedZeros(o0, mem, d, lo, a)
        invariant LeavesWithin(o0, owner, d, lo, a)
        decreases Pages(newsz) - a
      {
        assert a < Pages(newsz) <= USER_PAGES;
        ghost var m1, o1 := mem, owner;
        var ok := AddPage(d, a, ZeroData(), PTE_WU);
        SpacedTwice(o0, o1, owner, d);
        SameDataTwice(m0, o0, m1, o1, mem, d);
        if !ok {
          GiveBack(m0, o0, d, oldsz, newsz, a);
          OthersKept(m0, o0, mem, d, 0, 0);
          return 0;
        }
        AddedAll(m1, o0, o1, mem, d, lo, a);
        a := a + 1;
      }
      OthersKept(m0, o0, mem, d, 0, 0);
      sz := newsz;
    }

    /** copyuvm: a new space with copies of the first sz bytes of d, or null and
        nothing changed. */
    method Copyuvm(d: nat, sz: nat, data: nat) returns (nd: nat)
      requires Valid() && RoleIs(owner, d, Dir) && sz <= KERNBASE && EXT_PAGES < data < PHYS_PAGES
      requires forall u: nat :: u < Pages(sz) ==> Lookup(mem, d, u).present
      modifies this
      ensures Valid() && DataKept(old(mem), old(owner), mem)
      ensures nd == 0 ==> owner == old(owner)
      ensures nd != 0 ==>
                && RoleIs(old(owner), nd, Free) && RoleIs(owner, nd, Dir) && Spaced(old(owner), owner, nd)
                && Copied(old(mem), old(owner), mem, d, nd, Pages(sz)) && RestKernel(mem, nd, Pages(sz), data)
    {
      hide PagesOk, FreeOk, Lookup, Spaced, DataKept, Copied, RestKernel;
      ghost var m0, o0 := mem, owner;
      nd := Setupkvm(data);
      if nd == 0 {
        return;
      }
      FreeHasNoSpace(m0, o0, nd);
      CopyStart(m0, o0, mem, d, nd, data);
      var i := 0;
      while i * PGSIZE < sz
        invariant i <= Pages(sz) && Valid() && RoleIs(owner, nd, Dir) && Spaced(o0, owner, nd) && DataKept(m0, o0, mem)
        invariant Copied(m0, o0, mem, d, nd, i) && RestKernel(mem, nd, i, data)
        decreases Pages(sz) - i
      {
        ghost var m1, o1 := mem, owner;
        assert i < Pages(sz) <= USER_PAGES;
        var ok := CopyStep(m0, o0, d, nd, i, data);
        if !ok {
          ghost var m2, o2 := mem, owner;
          Freevm(nd);
          SpacedThenFreed(o0, o2, owner, nd);
          KeptThenFreed(m0, o0, m2, o2, mem, nd);
          return 0;
        }
        i := i + 1;
      }
    }

    /** One page of copyuvm. */
    method CopyStep(ghost m0: Memory, ghost o0: Owners, d: nat, nd: nat, i: nat, ghost data: nat) returns (ok: bool)
      requires Valid() && PagesOk(m0, o0) && RoleIs(o0, d, Dir) && RoleIs(o0, nd, Free) && i < USER_PAGES && Lookup(m0, d, i).present
      requires RoleIs(owner, nd, Dir) && Spaced(o0, owner, nd) && DataKept(m0, o0, mem)
      requires Copied(m0, o0, mem, d, nd, i) && RestKernel(mem, nd, i, data)
      modifies this
      ensures Valid() && RoleIs(owner, nd, Dir) && Spaced(o0, owner, nd) && DataKept(m0, o0, mem)
      ensures ok ==> Copied(m0, o0, mem, d, nd, i + 1) && RestKernel(mem, nd, i + 1, data)
    {
      hide PagesOk, FreeOk, Lookup, Spaced, DataKept, Copied, RestKernel;
      ghost var m1, o1 := mem, owner;
      ParentSame(m0, o0, mem, owner, d, nd, i);
      var t := Walk(d, i, false);
      var pa := LookupIs(mem, d, i);
      var flags := mem[t].e[i % ENTRIES].flags;
      LookupEntry(mem, d, i);
      PlaceFree(mem, nd, i, data);
      ok := AddPage(nd, i, mem[pa], flags);
      SpacedTwice(o0, o1, owner, nd);
      KeptMore(m0, o0, m1, o1, mem, nd);
      if ok {
        CopyNext(m0, o0, m1, o1, mem, d, nd, i, data);
      }
    }

    /** allocuvm's failure path. */
    method GiveBack(ghost m0: Memory, ghost o0: Owners, d: nat, oldsz: nat, newsz: nat, ghost a: nat)
      requires Valid() && RoleIs(owner, d, Dir) && oldsz < newsz < KERNBASE && Pages(oldsz) <= a <= Pages(newsz)
      requires PagesOk(m0, o0) && Spaced(o0, owner, d) && SameData(m0, o0, mem, d) && LeavesWithin(o0, owner, d, Pages(oldsz), a)
      requires NoneMapped(m0, d, Pages(oldsz), Pages(newsz)) && RoleIs(o0, d, Dir)
      requires forall u: nat :: u < ALL_PAGES && !(Pages(oldsz) <= u < a) ==> Lookup(mem, d, u) == Lookup(m0, d, u)
      modifies this
      ensures Valid() && RoleIs(owner, d, Dir) && Spaced(o0, owner, d) && SameData(m0, o0, mem, d)
      ensures NoneMapped(mem, d, Pages(oldsz), Pages(newsz))
      ensures forall u: nat :: u < ALL_PAGES && !(Pages(oldsz) <= u < Pages(newsz)) ==> Lookup(mem, d, u) == Lookup(m0, d, u)
      ensures forall q :: q in owner ==> owner[q] == o0[q] || (o0[q] == Free && owner[q].Tab? && owner[q].d == d)
    {
      hide PagesOk, FreeOk, Lookup;
      ghost var m1, o1 := mem, owner;
      var sz := Deallocuvm(d, newsz, oldsz);
      GivenBack(m0, o0, m1, o1, mem, owner, d, Pages(oldsz), Pages(newsz), a);
    }
  }

  /** The first n pages of nd are fresh copies of those of d, with equal flags. */
  ghost predicate Copied(m0: Memory, o0: Owners, m: Memory, d: nat, nd: nat, n: nat) {
    forall u: nat :: u < n && u < ALL_PAGES ==> CopiedAt(m0, o0, m, d, nd, u)
  }

  ghost predicate CopiedAt(m0: Memory, o0: Owners, m: Memory, d: nat, nd: nat, u: nat)
    requires u < ALL_PAGES
  {
    Lookup(m0, d, u).page in m0 && Added(o0, m, nd, u, m0[Lookup(m0, d, u).page], Lookup(m0, d, u).flags)
  }

  /** From page n on the space has only the kernel's part. */
  ghost predicate RestKernel(m: Memory, nd: nat, n: nat, data: nat) {
    forall u: nat :: n <= u < ALL_PAGES ==> Lookup(m, nd, u) == KernelPte(u, data)
  }

  lemma CopyStart(m0: Memory, o0: Owners, m: Memory, d: nat, nd: nat, data: nat)
    requires KernelMapped(m, nd, data, ALL_PAGES)
    ensures Copied(m0, o0, m, d, nd, 0) && RestKernel(m, nd, 0, data)
  {
  }

  /** The parent's space is untouched. */
  lemma ParentSame(m0: Memory, o0: Owners, m: Memory, o: Owners, d: nat, nd: nat, u: nat)
    requires PagesOk(m0, o0) && PagesOk(m, o) && RoleIs(o0, d, Dir) && RoleIs(o0, nd, Free) && u < USER_PAGES && Lookup(m0, d, u).present
    requires Spaced(o0, o, nd) && DataKept(m0, o0, m)
    ensures RoleIs(o, d, Dir) && HasTable(m, d, u / ENTRIES) && Lookup(m, d, u) == Lookup(m0, d, u)
    ensures Lookup(m, d, u).page in m && m[Lookup(m, d, u).page].Data?
    ensures Lookup(m0, d, u).page in m0 && m[Lookup(m, d, u).page] == m0[Lookup(m0, d, u).page]
  {
    hide PagesOk;
    TableAt(m0, o0, d, u / ENTRIES);
    assert m[d] == m0[d];
    var t := Entry(m0, d, u / ENTRIES).page;
    assert m[t] == m0[t];
    UserEntry(m0, o0, d, u);
    PageAt(m0, o0, Lookup(m0, d, u).page);
  }

  lemma PlaceFree(m: Memory, nd: nat, i: nat, data: nat)
    requires RestKernel(m, nd, i, data) && i < USER_PAGES
    ensures !Lookup(m, nd, i).present
  {
  }

  lemma KeptMore(m0: Memory, o0: Owners, m1: Memory, o1: Owners, m: Memory, nd: nat)
    requires DataKept(m0, o0, m1) && Spaced(o0, o1, nd) && SameData(m1, o1, m, nd) && RoleIs(o0, nd, Free) && PagesOk(m0, o0)
    ensures DataKept(m0, o0, m)
  {
    hide PagesOk;
    FreeHasNoSpace(m0, o0, nd);
    forall q | q in o0 && o0[q] != Free
      ensures q in m0 && q in m && m[q] == m0[q]
    {
      assert !InSpace(o0, q, nd) && o1[q] == o0[q];
    }
  }

  lemma CopyNext(m0: Memory, o0: Owners, m1: Memory, o1: Owners, m: Memory, d: nat, nd: nat, i: nat, data: nat)
    requires PagesOk(m1, o1) && RoleIs(o1, nd, Dir) && i < USER_PAGES && Lookup(m0, d, i).page in m0 && Spaced(o0, o1, nd)
    requires Copied(m0, o0, m1, d, nd, i) && RestKernel(m1, nd, i, data) && SameData(m1, o1, m, nd)
    requires forall u: nat :: u < ALL_PAGES && u != i ==> Lookup(m, nd, u) == Lookup(m1, nd, u)
    requires Added(o1, m, nd, i, m0[Lookup(m0, d, i).page], Lookup(m0, d, i).flags)
    ensures Copied(m0, o0, m, d, nd, i + 1) && RestKernel(m, nd, i + 1, data)
  {
    hide PagesOk, Lookup;
    forall u: nat | u < i + 1 && u < ALL_PAGES
      ensures CopiedAt(m0, o0, m, d, nd, u)
    {
      if u < i {
        assert CopiedAt(m0, o0, m1, d, nd, u);
        AddedKept(m1, o0, o1, m, nd, u, m0[Lookup(m0, d, u).page], Lookup(m0, d, u).flags);
      }
    }
  }

  /** Virtual page v of d is a page that was free, filled with c. */
  ghost predicate Added(o: Owners, m: Memory, d: nat, v: nat, c: Content, flags: nat) {
    && v < ALL_PAGES && Lookup(m, d, v).present && Lookup(m, d, v).flags == flags
    && RoleIs(o, Lookup(m, d, v).page, Free) && Lookup(m, d, v).page in m && m[Lookup(m, d, v).page] == c
  }

  ghost predicate AddedZero(o: Owners, m: Memory, d: nat, v: nat) {
    Added(o, m, d, v, ZeroData(), PTE_WU)
  }

  ghost predicate AddedZeros(o: Owners, m: Memory, d: nat, lo: nat, hi: nat) {
    forall u: nat :: lo <= u < hi ==> u < USER_PAGES && AddedZero(o, m, d, u)
  }

  /** Pages that mappages has still to come to are as they were. */
  lemma StillHeld(m0: Memory, o0: Owners, m: Memory, o: Owners, d: nat, lo: nat, v0: nat, k: nat, n: nat)
    requires k <= n && AllHeld(m0, o0, lo, n) && Joined(o0, o, d, lo, v0, k) && SameData(m0, o0, m, d)
    ensures AllHeld(m, o, lo + k, n - k) && AllHeld(m0, o0, lo, k) && (k < n ==> AllHeld(m0, o0, lo, k + 1))
  {
    forall q | lo + k <= q < lo + n
      ensures RoleIs(o, q, Other) && q in m && m[q].Data?
    {
      assert RoleIs(o0, q, Other) && Released(o, lo, k)[q] == Other;
    }
  }

  lemma MapStepJoins(o: Owners, s: Owners, d: nat, p: nat, v: nat, more: nat)
    requires more <= 1 && if more == 1 then RoleIs(s, p, Leaf(d, v)) && Spaced(o, s[p := Other], d) else Spaced(o, s, d)
    ensures Joined(o, s, d, p, v, more) && s.Keys == o.Keys
  {
    if more == 1 {
      assert Released(s, p, 1) == s[p := Other];
      assert s[p := Other].Keys == s.Keys;
    } else {
      assert Released(s, p, 0) == s;
    }
  }

  /** The page taken from the list for v counts as having joined the space. */
  lemma SpacedAdd(o: Owners, p: nat, s: Owners, d: nat, v: nat)
    requires RoleIs(o, p, Free) && RoleIs(s, p, Leaf(d, v)) && Spaced(o[p := Other], s[p := Other], d) && p != d
    ensures Spaced(o, s, d)
  {
    assert s.Keys == s[p := Other].Keys && o.Keys == o[p := Other].Keys;
    forall q | q in o
      ensures if o[q] == Free then s[q] == Free || InSpace(s, q, d) else s[q] == o[q]
    {
      if q != p {
        assert o[p := Other][q] == o[q] && s[p := Other][q] == s[q];
        assert InSpace(s[p := Other], q, d) ==> InSpace(s, q, d);
      }
    }
  }

  lemma SpacedBack(o: Owners, p: nat, s: Owners, d: nat)
    requires RoleIs(o, p, Free) && Spaced(o[p := Other], s, d) && p != d
    ensures RoleIs(s, p, Other) && Spaced(o, s[p := Free], d)
  {
    assert o[p := Other][p] == Other;
    forall q | q in o && q != p
      ensures if o[q] == Free then s[p := Free][q] == Free || InSpace(s[p := Free], q, d) else s[p := Free][q] == o[q]
    {
      assert o[p := Other][q] == o[q];
      assert InSpace(s, q, d) ==> InSpace(s[p := Free], q, d);
    }
  }

  ghost predicate LeavesWithin(o: Owners, s: Owners, d: nat, lo: nat, hi: nat) {
    s.Keys == o.Keys && forall q :: q in s && s[q].Leaf? ==> s[q] == o[q] || InRange(s[q], d, lo, hi)
  }

  lemma OtherList(m: Memory, o: Owners, free: seq<nat>, head: nat, p: nat, c: Content)
    requires FreeOk(m, o, free, head) && RoleIs(o, p, Other)
    ensures FreeOk(m[p := c], o, free, head)
  {
    ListKept(m, o, free, head, m[p := c], o);
  }

  lemma LooseAll(m: Memory, o: Owners, p: nat, c: Content, role: Role, d: nat)
    requires PagesOk(m, o) && RoleIs(o, p, Other) && RoleIs(o, d, Dir) && (role == Other || (role == Free && c.Link?))
    ensures forall u: nat :: u < ALL_PAGES ==> Lookup(m[p := c], d, u) == Lookup(m, d, u)
  {
    Loose(m, o, p, c, role);
  }

  /** Pages added earlier keep their contents, and the new one joins them. */
  lemma AddedAll(m1: Memory, o0: Owners, o1: Owners, m: Memory, d: nat, lo: nat, a: nat)
    requires PagesOk(m1, o1) && RoleIs(o1, d, Dir) && SameData(m1, o1, m, d) && lo <= a < USER_PAGES
    requires AddedZeros(o0, m1, d, lo, a)
    requires forall u: nat :: u < ALL_PAGES && u != a ==> Lookup(m, d, u) == Lookup(m1, d, u)
    requires Added(o1, m, d, a, ZeroData(), PTE_WU) && Spaced(o0, o1, d)
    ensures AddedZeros(o0, m, d, lo, a + 1)
  {
    hide PagesOk, Lookup;
    forall u: nat | lo <= u < a + 1
      ensures u < USER_PAGES && AddedZero(o0, m, d, u)
    {
      if u < a {
        assert AddedZero(o0, m1, d, u);
        AddedKept(m1, o0, o1, m, d, u, ZeroData(), PTE_WU);
      }
    }
  }

  lemma AddedKept(m1: Memory, o0: Owners, o1: Owners, m: Memory, d: nat, u: nat, c: Content, flags: nat)
    requires PagesOk(m1, o1) && RoleIs(o1, d, Dir) && SameData(m1, o1, m, d) && u < USER_PAGES
    requires Added(o0, m1, d, u, c, flags) && Lookup(m, d, u) == Lookup(m1, d, u)
    ensures Added(o0, m, d, u, c, flags)
  {
    hide PagesOk, Lookup;
    UserEntry(m1, o1, d, u);
  }

  lemma GivenBack(m0: Memory, o0: Owners, m1: Memory, o1: Owners, m: Memory, o: Owners, d: nat, lo: nat, hi: nat, a: nat)
    requires PagesOk(m0, o0) && RoleIs(o0, d, Dir) && NoneMapped(m0, d, lo, hi) && lo <= a <= hi <= USER_PAGES
    requires Spaced(o0, o1, d) && SameData(m0, o0, m1, d) && LeavesWithin(o0, o1, d, lo, a)
    requires Shrunk(o1, o, d, lo, hi) && SameDataBut(m1, o1, m, d, lo, hi)
    ensures Spaced(o0, o, d) && SameData(m0, o0, m, d)
    ensures forall q :: q in o ==> o[q] == o0[q] || (o0[q] == Free && o[q].Tab? && o[q].d == d)
  {
    hide PagesOk, Lookup;
    forall q | q in o0
      ensures !InRange(o0[q], d, lo, hi)
    {
      if o0[q].Leaf? {
        LeafHere(m0, o0, q);
      }
    }
    forall q | q in o
      ensures o[q] == o0[q] || (o0[q] == Free && o[q].Tab? && o[q].d == d)
    {
      assert o1[q].Leaf? ==> o1[q] == o0[q] || InRange(o1[q], d, lo, hi);
    }
  }

  /** Contents of every page that was not free. */
  ghost predicate DataKept(m: Memory, o: Owners, r: Memory) {
    forall q :: q in o && o[q] != Free ==> q in m && q in r && r[q] == m[q]
  }

  ghost predicate NonePtes(m: Memory, d: nat) {
    forall u: nat :: u < ALL_PAGES ==> Lookup(m, d, u) == NoPte()
  }

  lemma ZeroPtes(m: Memory, d: nat)
    requires d in m && m[d] == ZeroTable()
    ensures NonePtes(m, d)
  {
  }

  lemma KeptSelf(m: Memory, o: Owners)
    requires PagesOk(m, o)
    ensures DataKept(m, o, m)
  {
    SameDataSelf(m, o, 0);
    forall q | q in o
      ensures q in m
    {
      PageAt(m, o, q);
    }
  }

  /** A free page is the directory of no space. */
  lemma FreeHasNoSpace(m: Memory, o: Owners, d: nat)
    requires PagesOk(m, o) && RoleIs(o, d, Free)
    ensures forall q :: q in o ==> !InSpace(o, q, d)
  {
    hide PagesOk;
    forall q | q in o
      ensures !InSpace(o, q, d)
    {
      PageAt(m, o, q);
    }
  }

  lemma NewDirList(m: Memory, o: Owners, free: seq<nat>, head: nat, d: nat)
    requires FreeOk(m, o, free, head) && RoleIs(o, d, Other)
    ensures FreeOk(m[d := ZeroTable()], o[d := Dir], free, head)
  {
    ListKept(m, o, free, head, m[d := ZeroTable()], o[d := Dir]);
  }

  lemma NewSpaced(m: Memory, o: Owners, d: nat)
    requires PagesOk(m, o) && RoleIs(o, d, Free)
    ensures Spaced(o, o[d := Other][d := Dir], d) && SameData(m, o, m[d := ZeroTable()], d)
  {
    forall q | q in o
      ensures q in m
    {
      PageAt(m, o, q);
    }
  }

  lemma KeptFrom(m: Memory, o: Owners, r: Memory, d: nat)
    requires SameData(m, o, r, d) && (forall q :: q in o ==> !InSpace(o, q, d)) && RoleIs(o, d, Free)
    ensures DataKept(m, o, r)
  {
    forall q | q in o && o[q] != Free
      ensures q in m && q in r && r[q] == m[q]
    {
      assert !InSpace(o, q, d);
    }
  }

  lemma KeptThenFreed(m: Memory, o: Owners, r: Memory, s: Owners, u: Memory, d: nat)
    requires DataKept(m, o, r) && Spaced(o, s, d) && OutsideSame(r, s, u, d) && (forall q :: q in o ==> !InSpace(o, q, d))
    ensures DataKept(m, o, u)
  {
    forall q | q in o && o[q] != Free
      ensures q in m && q in u && u[q] == m[q]
    {
      assert !InSpace(o, q, d) && s[q] == o[q];
      assert !InSpace(s, q, d);
    }
  }

  lemma NoLeafLeft(m: Memory, o: Owners, r: Memory, s: Owners, d: nat)
    requires PagesOk(m, o) && Shrunk(o, s, d, 0, USER_PAGES)
    ensures forall q :: q in s ==> !(s[q].Leaf? && s[q].d == d)
    ensures forall q :: q in o && o[q].Leaf? ==> o[q].v < USER_PAGES
  {
    hide PagesOk;
    forall q | q in o && o[q].Leaf?
      ensures o[q].v < USER_PAGES
    {
      LeafHere(m, o, q);
    }
  }

  lemma OutsideSelf(m: Memory, o: Owners, d: nat)
    requires PagesOk(m, o)
    ensures OutsideSame(m, o, m, d)
  {
    SameDataSelf(m, o, d);
  }

  lemma OutsideTwice(m: Memory, o: Owners, r: Memory, s: Owners, u: Memory, d: nat)
    requires Shrunk(o, s, d, 0, USER_PAGES) && SameDataBut(m, o, r, d, 0, USER_PAGES) && OutsideSame(r, s, u, d)
    ensures OutsideSame(m, o, u, d)
  {
  }

  lemma OutsideStep(m: Memory, o: Owners, r: Memory, d: nat, u: Memory, p: nat)
    requires OutsideSame(m, o, r, d) && InSpace(o, p, d) && (forall q :: q in r && q != p ==> q in u && u[q] == r[q])
    ensures OutsideSame(m, o, u, d)
  {
  }

  /** A table that is about to be freed belonged to the space. */
  lemma FreedInside(o: Owners, s: Owners, d: nat, i: nat, p: nat)
    requires TablesFreed(o, s, d, i) && RoleIs(s, p, Other) && RoleIs(s[p := Free], p, Free)
    requires TablesFreed(o, s[p := Free], d, i + 1)
    ensures InSpace(o, p, d)
  {
  }

  lemma DirInside(o: Owners, d: nat)
    requires RoleIs(o, d, Dir)
    ensures InSpace(o, d, d)
  {
  }

  lemma DissolvedList(m: Memory, o: Owners, free: seq<nat>, head: nat, d: nat)
    requires FreeOk(m, o, free, head)
    ensures FreeOk(m, Dissolved(o, d), free, head)
  {
    ListKept(m, o, free, head, m, Dissolved(o, d));
  }

  /** A directory entry without a table: the rest of its range has no pages. */
  lemma SkipRange(m0: Memory, o0: Owners, m: Memory, o: Owners, d: nat, lo: nat, a: nat, b: nat)
    requires PagesOk(m, o) && lo <= a < USER_PAGES && !HasTable(m, d, a / ENTRIES) && b == (a / ENTRIES + 1) * ENTRIES
    requires Shrunk(o0, o, d, lo, a) && SameDataBut(m0, o0, m, d, lo, a) && NoneMapped(m, d, lo, a)
    ensures a < b && Shrunk(o0, o, d, lo, b) && SameDataBut(m0, o0, m, d, lo, b) && NoneMapped(m, d, lo, b)
  {
    hide PagesOk, Lookup;
    forall u: nat | a <= u < b
      ensures u < ALL_PAGES && !Lookup(m, d, u).present && forall q :: q in o ==> o[q] != Leaf(d, u)
    {
      assert u / ENTRIES == a / ENTRIES;
      SkipTable(m, o, d, a / ENTRIES, u);
    }
    ShrunkIdle(o0, o, d, lo, a, b);
    WiderBut(m0, o0, m, d, lo, a, b);
  }

  /** The last skip may end beyond the end of the range: nothing was there. */
  lemma PastEnd(m: Memory, o: Owners, r: Memory, s: Owners, d: nat, lo: nat, hi: nat, a: nat)
    requires PagesOk(m, o) && lo <= a && hi <= a && hi <= USER_PAGES && Shrunk(o, s, d, lo, a) && SameDataBut(m, o, r, d, lo, a)
    requires NoneMapped(r, d, lo, a)
    requires forall u: nat :: u < ALL_PAGES && !(lo <= u < a && u < hi) ==> Lookup(r, d, u) == Lookup(m, d, u)
    ensures Shrunk(o, s, d, lo, hi) && SameDataBut(m, o, r, d, lo, hi) && NoneMapped(r, d, lo, hi)
  {
    hide PagesOk, Lookup;
    forall q | q in o && InRange(o[q], d, lo, a)
      ensures o[q].v < hi
    {
      LeafHere(m, o, q);
    }
  }

  lemma LeafHere(m: Memory, o: Owners, q: nat)
    requires PagesOk(m, o) && q in o && o[q].Leaf?
    ensures o[q].v < USER_PAGES && Lookup(m, o[q].d, o[q].v).present
  {
    PageAt(m, o, q);
  }

  lemma LookupEntry(m: Memory, d: nat, v: nat)
    requires v < ALL_PAGES && HasTable(m, d, v / ENTRIES)
    ensures Lookup(m, d, v) == Entry(m, Entry(m, d, v / ENTRIES).page, v % ENTRIES)
  {
  }

  lemma WiderBut(m: Memory, o: Owners, r: Memory, d: nat, lo: nat, a: nat, b: nat)
    requires SameDataBut(m, o, r, d, lo, a) && a <= b
    ensures SameDataBut(m, o, r, d, lo, b)
  {
  }

  lemma DataSelf(m: Memory, o: Owners, d: nat, lo: nat, hi: nat)
    requires PagesOk(m, o)
    ensures SameDataBut(m, o, m, d, lo, hi) && Shrunk(o, o, d, lo, lo)
  {
    forall q | q in o
      ensures q in m
    {
      PageAt(m, o, q);
    }
  }

  /** The page number stored in a present entry. */
  method LookupIs(mem: Memory, d: nat, v: nat) returns (p: nat)
    requires v < ALL_PAGES && HasTable(mem, d, v / ENTRIES)
    ensures p == Lookup(mem, d, v).page
  {
    p := mem[mem[d].e[v / ENTRIES].page].e[v % ENTRIES].page;
  }

  lemma FreeHead(m: Memory, o: Owners, free: seq<nat>, head: nat)
    requires PagesOk(m, o) && FreeOk(m, o, free, head)
    ensures head == 0 <==> free == []
    ensures head != 0 ==> head in m && m[head].Link?
  {
    if free != [] {
      assert free[0] in free && LinkOk(m, free, 0);
      PageNamed(m, o, free[0]);
    }
  }

  lemma LooseSame(m: Memory, o: Owners, p: nat)
    requires PagesOk(m, o) && RoleIs(o, p, Free)
    ensures PagesOk(m, o[p := Other])
  {
    PageNamed(m, o, p);
    Loose(m, o, p, m[p], Other);
    assert m[p := m[p]] == m;
  }
}
