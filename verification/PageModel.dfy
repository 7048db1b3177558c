/** Physical pages and the two-level page tables stored in them. A page is known
    by its number; 0 is the null pointer. Every page the allocator manages has one
    role: free, a page directory, the table for one directory entry, the user page
    at one virtual page number, or held by other code. */
module PageModel {

  import opened Blocks

  const ENTRIES := 1024
  const USER_TABLES := 512             // PDX(KERNBASE)
  const USER_PAGES := 524288           // KERNBASE / PGSIZE
  const ALL_PAGES := 1048576
  const PGSIZE := 4096

  datatype Pte = Pte(present: bool, page: nat, flags: nat)

  function NoPte(): (e: Pte) {
    Pte(false, 0, 0)
  }

  datatype Content =
    | Link(next: nat)            // on the free list
    | Table(e: seq<Pte>)
    | Data(b: seq<byte>)

  datatype Role = Free | Dir | Tab(d: nat, i: nat) | Leaf(d: nat, v: nat) | Other

  type Memory = map<nat, Content>
  type Owners = map<nat, Role>

  function ZeroTable(): (c: Content) {
    Table(seq(ENTRIES, _ => NoPte()))
  }

  // ---- one address space

  ghost predicate IsTable(m: Memory, p: nat) {
    p in m && m[p].Table? && |m[p].e| == ENTRIES
  }

  ghost function Entry(m: Memory, p: nat, i: nat): (e: Pte)
    requires IsTable(m, p) && i < ENTRIES
  {
    m[p].e[i]
  }

  function SetEntry(m: Memory, p: nat, i: nat, x: Pte): (r: Memory)
    requires p in m && m[p].Table? && i < |m[p].e|
  {
    m[p := Table(m[p].e[i := x])]
  }

  /** Both levels of table that translate virtual page v exist. */
  ghost predicate HasTable(m: Memory, d: nat, i: nat)
    requires i < ENTRIES
  {
    IsTable(m, d) && Entry(m, d, i).present && IsTable(m, Entry(m, d, i).page)
  }

  /** The entry for virtual page v, absent when its table is. */
  ghost function Lookup(m: Memory, d: nat, v: nat): (e: Pte)
    requires v < ALL_PAGES
  {
    if HasTable(m, d, v / ENTRIES) then Entry(m, Entry(m, d, v / ENTRIES).page, v % ENTRIES) else NoPte()
  }

  /** The processor's own way through the tables: the upper ten bits of the page
      number select the directory's entry, the lower ten that of the table. */
  ghost predicate Translates(m: Memory, d: nat, v: nat, page: nat, flags: nat) {
    && d in m && m[d].Table? && |m[d].e| == 1024 && v / 1024 < 1024 && m[d].e[v / 1024].present
    && var t := m[d].e[v / 1024].page;
    && t in m && m[t].Table? && |m[t].e| == 1024 && m[t].e[v % 1024] == Pte(true, page, flags)
  }

  lemma LookupTranslates(m: Memory, d: nat, v: nat, page: nat, flags: nat)
    requires v < ALL_PAGES
    ensures Lookup(m, d, v) == Pte(true, page, flags) <==> Translates(m, d, v, page, flags)
  {
  }

  /** No virtual page from lo up to hi is mapped. */
  ghost predicate NoneMapped(m: Memory, d: nat, lo: nat, hi: nat) {
    forall v: nat :: lo <= v < hi && v < ALL_PAGES ==> !Lookup(m, d, v).present
  }

  // ---- ownership

  ghost predicate RoleIs(o: Owners, p: nat, r: Role) {
    p in o && o[p] == r
  }

  /** A directory names exactly the tables it owns. */
  ghost predicate DirOk(m: Memory, o: Owners, d: nat) {
    IsTable(m, d) && forall i :: 0 <= i < ENTRIES && Entry(m, d, i).present ==> RoleIs(o, Entry(m, d, i).page, Tab(d, i))
  }

  /** A table belongs to a directory that names it; a user table names exactly the
      user pages it owns. */
  ghost predicate TabOk(m: Memory, o: Owners, p: nat, d: nat, i: nat) {
    && IsTable(m, p) && RoleIs(o, d, Dir) && i < ENTRIES
    && IsTable(m, d) && Entry(m, d, i).present && Entry(m, d, i).page == p
    && (i < USER_TABLES ==> NamesOwn(m, o, p, d, i))
  }

  ghost predicate NamesOwn(m: Memory, o: Owners, p: nat, d: nat, i: nat)
    requires IsTable(m, p)
  {
    forall j :: 0 <= j < ENTRIES && Entry(m, p, j).present ==> RoleIs(o, Entry(m, p, j).page, Leaf(d, i * ENTRIES + j))
  }

  lemma NamesKept(m: Memory, o: Owners, p: nat, d: nat, i: nat, r: Memory, s: Owners)
    requires IsTable(m, p) && NamesOwn(m, o, p, d, i) && IsTable(r, p) && r[p] == m[p]
    requires forall x :: x in o && o[x].Leaf? ==> x in s && s[x] == o[x]
    ensures NamesOwn(r, s, p, d, i)
  {
    forall j | 0 <= j < ENTRIES && Entry(r, p, j).present
      ensures RoleIs(s, Entry(r, p, j).page, Leaf(d, i * ENTRIES + j))
    {
      assert Entry(m, p, j).present;
    }
  }

  ghost predicate LeafOk(m: Memory, o: Owners, p: nat, d: nat, v: nat) {
    && v < USER_PAGES && RoleIs(o, d, Dir) && HasTable(m, d, v / ENTRIES)
    && Lookup(m, d, v).present && Lookup(m, d, v).page == p && p in m && m[p].Data?
  }

  ghost predicate PageOk(m: Memory, o: Owners, p: nat)
    requires p in o
  {
    && p in m && p > 0
    && match o[p]
       case Free => m[p].Link?
       case Dir => DirOk(m, o, p)
       case Tab(d, i) => TabOk(m, o, p, d, i)
       case Leaf(d, v) => LeafOk(m, o, p, d, v)
       case Other => true
  }

  ghost predicate PagesOk(m: Memory, o: Owners) {
    forall p :: p in o ==> PageOk(m, o, p)
  }

  /** The address space that a page belongs to. */
  ghost predicate InSpace(o: Owners, p: nat, d: nat) {
    p in o && ((p == d && o[p] == Dir) || (o[p].Tab? && o[p].d == d) || (o[p].Leaf? && o[p].d == d))
  }

  /** No page is mapped twice: a user page of one space at one address is at no
      other address and in no other space. */
  lemma MappedOnce(m: Memory, o: Owners, d: nat, v: nat, d2: nat, v2: nat)
    requires PagesOk(m, o) && RoleIs(o, d, Dir) && RoleIs(o, d2, Dir) && v < USER_PAGES && v2 < USER_PAGES
    requires Lookup(m, d, v).present && Lookup(m, d2, v2).present && Lookup(m, d, v).page == Lookup(m, d2, v2).page
    ensures d == d2 && v == v2
  {
    UserEntry(m, o, d, v);
    UserEntry(m, o, d2, v2);
  }

  lemma UserEntry(m: Memory, o: Owners, d: nat, v: nat)
    requires PagesOk(m, o) && RoleIs(o, d, Dir) && v < USER_PAGES && Lookup(m, d, v).present
    ensures RoleIs(o, Lookup(m, d, v).page, Leaf(d, v))
  {
    var i, j := v / ENTRIES, v % ENTRIES;
    assert PageOk(m, o, d);
    var p := Entry(m, d, i).page;
    assert RoleIs(o, p, Tab(d, i));
    assert PageOk(m, o, p);
    assert i * ENTRIES + j == v;
  }

  lemma TableAt(m: Memory, o: Owners, d: nat, i: nat)
    requires PagesOk(m, o) && RoleIs(o, d, Dir) && i < ENTRIES
    ensures IsTable(m, d) && (Entry(m, d, i).present ==> HasTable(m, d, i) && RoleIs(o, Entry(m, d, i).page, Tab(d, i)))
  {
    assert PageOk(m, o, d);
    if Entry(m, d, i).present {
      assert PageOk(m, o, Entry(m, d, i).page);
    }
  }

  // ---- a new table

  function Tabled(m: Memory, d: nat, i: nat, p: nat, flags: nat): (r: Memory)
    requires d in m && m[d].Table? && i < |m[d].e| && p != d
  {
    SetEntry(m[p := ZeroTable()], d, i, Pte(true, p, flags))
  }

  lemma TabledLookup(m: Memory, o: Owners, d: nat, i: nat, p: nat, flags: nat, d2: nat, v: nat)
    requires PagesOk(m, o) && RoleIs(o, d, Dir) && i < ENTRIES && RoleIs(o, p, Other)
    requires IsTable(m, d) && !Entry(m, d, i).present && RoleIs(o, d2, Dir) && v < ALL_PAGES
    ensures Lookup(Tabled(m, d, i, p, flags), d2, v) == Lookup(m, d2, v)
  {
    var r := Tabled(m, d, i, p, flags);
    var k := v / ENTRIES;
    TableAt(m, o, d2, k);
    assert r[p] == ZeroTable() && |r[d].e| == ENTRIES;
    assert d2 != p;
    if d2 == d && k == i {
      assert HasTable(r, d, i);
    } else if Entry(m, d2, k).present {
      var q := Entry(m, d2, k).page;
      assert q != p && q != d && r[q] == m[q];
    }
  }

  lemma TabledOk(m: Memory, o: Owners, d: nat, i: nat, p: nat, flags: nat)
    requires PagesOk(m, o) && RoleIs(o, d, Dir) && i < ENTRIES && RoleIs(o, p, Other)
    requires IsTable(m, d) && !Entry(m, d, i).present
    ensures PagesOk(Tabled(m, d, i, p, flags), o[p := Tab(d, i)])
  {
    hide PageOk;
    var r, s := Tabled(m, d, i, p, flags), o[p := Tab(d, i)];
    forall q | q in s
      ensures PageOk(r, s, q)
    {
      TabledPage(m, o, d, i, p, flags, q);
    }
  }

  lemma TabledPage(m: Memory, o: Owners, d: nat, i: nat, p: nat, flags: nat, q: nat)
    requires PagesOk(m, o) && RoleIs(o, d, Dir) && i < ENTRIES && RoleIs(o, p, Other)
    requires IsTable(m, d) && !Entry(m, d, i).present && q in o
    ensures PageOk(Tabled(m, d, i, p, flags), o[p := Tab(d, i)], q)
  {
    hide Lookup, PagesOk;
    var r, s := Tabled(m, d, i, p, flags), o[p := Tab(d, i)];
    assert PageOk(m, o, q) && PageOk(m, o, p) && PageOk(m, o, d) by { PageAt(m, o, q); PageAt(m, o, p); PageAt(m, o, d); }
    assert |r[d].e| == ENTRIES && r[d].e[i] == Pte(true, p, flags);
    if q == p {
      assert TabOk(r, s, p, d, i);
    } else {
      match o[q]
      case Leaf(d2, v) =>
        TabledLookup(m, o, d, i, p, flags, d2, v);
        TableAt(m, o, d2, v / ENTRIES);
        var t := Entry(m, d2, v / ENTRIES).page;
        assert t != p && t != d && d2 != p;
        assert LeafOk(r, s, q, d2, v);
      case Tab(d2, k) =>
        assert r[q] == m[q] && d2 != p && Entry(r, d2, k) == Entry(m, d2, k);
        if k < USER_TABLES {
          NamesKept(m, o, q, d2, k, r, s);
        }
        assert TabOk(r, s, q, d2, k);
      case Dir => assert DirOk(r, s, q);
      case _ =>
    }
  }

  lemma PageAt(m: Memory, o: Owners, p: nat)
    requires PagesOk(m, o) && p in o
    ensures PageOk(m, o, p)
  {
  }

  // ---- an entry of a table

  ghost function Mapped(m: Memory, d: nat, v: nat, x: Pte): (r: Memory)
    requires v < ALL_PAGES && HasTable(m, d, v / ENTRIES)
  {
    SetEntry(m, Entry(m, d, v / ENTRIES).page, v % ENTRIES, x)
  }

  /** Exactly one translation of one space changes. */
  lemma MappedLookup(m: Memory, o: Owners, d: nat, v: nat, x: Pte, d2: nat, v2: nat)
    requires PagesOk(m, o) && RoleIs(o, d, Dir) && v < ALL_PAGES && HasTable(m, d, v / ENTRIES)
    requires RoleIs(o, d2, Dir) && v2 < ALL_PAGES
    ensures Lookup(Mapped(m, d, v, x), d2, v2) == if d2 == d && v2 == v then x else Lookup(m, d2, v2)
    ensures forall i :: 0 <= i < ENTRIES ==> (HasTable(Mapped(m, d, v, x), d2, i) <==> HasTable(m, d2, i))
  {
    var r := Mapped(m, d, v, x);
    var t := Entry(m, d, v / ENTRIES).page;
    TableAt(m, o, d, v / ENTRIES);
    TableAt(m, o, d2, v2 / ENTRIES);
    assert d2 != t && r[d2] == m[d2] && |r[t].e| == ENTRIES;
    forall i | 0 <= i < ENTRIES
      ensures HasTable(r, d2, i) <==> HasTable(m, d2, i)
    {
      assert IsTable(r, d2) && Entry(r, d2, i) == Entry(m, d2, i);
    }
    assert Entry(r, d2, v2 / ENTRIES) == Entry(m, d2, v2 / ENTRIES);
    if Entry(m, d2, v2 / ENTRIES).present && Entry(m, d2, v2 / ENTRIES).page == t {
      assert d2 == d && v2 / ENTRIES == v / ENTRIES;
      assert v2 % ENTRIES == v % ENTRIES <==> v2 == v;
    }
  }

  /** The page whose role changes from a to b, at address v of d. */
  lemma MappedPage(m: Memory, o: Owners, s: Owners, d: nat, v: nat, x: Pte, q: nat, p: nat)
    requires PagesOk(m, o) && RoleIs(o, d, Dir) && v < ALL_PAGES && HasTable(m, d, v / ENTRIES)
    requires q in o && q != p && q != Entry(m, d, v / ENTRIES).page
    requires s.Keys == o.Keys && (forall y :: y in o && y != p ==> s[y] == o[y])
    requires p in o ==> o[p] == Other || o[p] == Leaf(d, v)
    requires o[q] != Leaf(d, v)
    ensures PageOk(Mapped(m, d, v, x), s, q)
  {
    hide Lookup, PagesOk;
    var r := Mapped(m, d, v, x);
    var t := Entry(m, d, v / ENTRIES).page;
    PageAt(m, o, q);
    TableAt(m, o, d, v / ENTRIES);
    assert r[q] == m[q];
    match o[q]
    case Leaf(d2, v2) =>
      MappedLookup(m, o, d, v, x, d2, v2);
      assert LeafOk(r, s, q, d2, v2);
    case Tab(d2, k) =>
      assert Entry(r, d2, k) == Entry(m, d2, k);
      if k < USER_TABLES {
        MappedNames(m, o, q, d2, k, r, s, p, d, v, t);
      }
      assert TabOk(r, s, q, d2, k);
    case Dir => assert DirOk(r, s, q);
    case _ =>
  }

  lemma MappedNames(m: Memory, o: Owners, q: nat, d2: nat, k: nat, r: Memory, s: Owners, p: nat, d: nat, v: nat, t: nat)
    requires IsTable(m, q) && IsTable(r, q) && r[q] == m[q] && k < USER_TABLES && v < ALL_PAGES
    requires NamesOwn(m, o, q, d2, k) && q != t && RoleIs(o, q, Tab(d2, k)) && RoleIs(o, t, Tab(d, v / ENTRIES))
    requires PagesOk(m, o) && s.Keys == o.Keys && (forall y :: y in o && y != p ==> s[y] == o[y])
    requires p in o ==> o[p] == Other || o[p] == Leaf(d, v)
    ensures NamesOwn(r, s, q, d2, k)
  {
    hide Lookup, PagesOk;
    PageAt(m, o, q);
    PageAt(m, o, t);
    forall j | 0 <= j < ENTRIES && Entry(r, q, j).present
      ensures RoleIs(s, Entry(r, q, j).page, Leaf(d2, k * ENTRIES + j))
    {
      assert Entry(m, q, j).present;
      assert (k * ENTRIES + j) / ENTRIES == k;
    }
  }

  /** The table itself after the change. */
  lemma MappedTable(m: Memory, o: Owners, s: Owners, d: nat, v: nat, x: Pte, p: nat)
    requires PagesOk(m, o) && RoleIs(o, d, Dir) && v < ALL_PAGES && HasTable(m, d, v / ENTRIES)
    requires s.Keys == o.Keys && (forall y :: y in o && y != p ==> s[y] == o[y])
    requires p in o ==> o[p] == Other || o[p] == Leaf(d, v)
    requires v < USER_PAGES && x.present ==> RoleIs(s, x.page, Leaf(d, v))
    ensures PageOk(Mapped(m, d, v, x), s, Entry(m, d, v / ENTRIES).page)
  {
    hide Lookup, PagesOk;
    var r := Mapped(m, d, v, x);
    var i := v / ENTRIES;
    var t := Entry(m, d, i).page;
    TableAt(m, o, d, i);
    PageAt(m, o, t);
    assert |r[t].e| == ENTRIES;
    if i < USER_TABLES {
      forall j | 0 <= j < ENTRIES && Entry(r, t, j).present
        ensures RoleIs(s, Entry(r, t, j).page, Leaf(d, i * ENTRIES + j))
      {
        if j == v % ENTRIES {
          assert i * ENTRIES + j == v;
        } else {
          assert Entry(r, t, j) == Entry(m, t, j);
          assert i * ENTRIES + j != v;
        }
      }
      assert NamesOwn(r, s, t, d, i);
    }
    assert TabOk(r, s, t, d, i);
  }

  /** A held page becomes the user page at v. */
  lemma MapUser(m: Memory, o: Owners, d: nat, v: nat, p: nat, flags: nat)
    requires PagesOk(m, o) && RoleIs(o, d, Dir) && v < USER_PAGES && HasTable(m, d, v / ENTRIES)
    requires !Lookup(m, d, v).present && RoleIs(o, p, Other) && m[p].Data?
    ensures PagesOk(Mapped(m, d, v, Pte(true, p, flags)), o[p := Leaf(d, v)])
  {
    hide PageOk, Lookup;
    var x := Pte(true, p, flags);
    var r, s := Mapped(m, d, v, x), o[p := Leaf(d, v)];
    PageNamed(m, o, p);
    forall q | q in s
      ensures PageOk(r, s, q)
    {
      if q == Entry(m, d, v / ENTRIES).page {
        MappedTable(m, o, s, d, v, x, p);
      } else if q == p {
        MappedLeaf(m, o, s, d, v, x);
      } else {
        NotAbsentLeaf(m, o, d, v, q);
        MappedPage(m, o, s, d, v, x, q, p);
      }
    }
  }

  lemma NotAbsentLeaf(m: Memory, o: Owners, d: nat, v: nat, q: nat)
    requires PagesOk(m, o) && v < ALL_PAGES && !Lookup(m, d, v).present && q in o
    ensures o[q] != Leaf(d, v)
  {
    PageAt(m, o, q);
  }

  lemma MappedLeaf(m: Memory, o: Owners, s: Owners, d: nat, v: nat, x: Pte)
    requires PagesOk(m, o) && RoleIs(o, d, Dir) && v < USER_PAGES && HasTable(m, d, v / ENTRIES)
    requires x.present && x.page in m && x.page > 0 && m[x.page].Data? && RoleIs(s, x.page, Leaf(d, v)) && RoleIs(s, d, Dir)
    ensures PageOk(Mapped(m, d, v, x), s, x.page)
  {
    var r := Mapped(m, d, v, x);
    MappedLookup(m, o, d, v, x, d, v);
    assert LeafOk(r, s, x.page, d, v);
  }

  /** ... and back. */
  lemma UnmapUser(m: Memory, o: Owners, d: nat, v: nat)
    requires PagesOk(m, o) && RoleIs(o, d, Dir) && v < USER_PAGES && HasTable(m, d, v / ENTRIES) && Lookup(m, d, v).present
    ensures PagesOk(Mapped(m, d, v, NoPte()), o[Lookup(m, d, v).page := Other])
  {
    hide PageOk;
    UserEntry(m, o, d, v);
    var p := Lookup(m, d, v).page;
    var r, s := Mapped(m, d, v, NoPte()), o[p := Other];
    PageNamed(m, o, p);
    forall q | q in s
      ensures PageOk(r, s, q)
    {
      if q == Entry(m, d, v / ENTRIES).page {
        MappedTable(m, o, s, d, v, NoPte(), p);
      } else if q == p {
        assert PageOk(r, s, q) by { OtherOk(r, s, q); }
      } else {
        OnlyLeaf(m, o, d, v, q);
        MappedPage(m, o, s, d, v, NoPte(), q, p);
      }
    }
  }

  lemma PageNamed(m: Memory, o: Owners, p: nat)
    requires PagesOk(m, o) && p in o
    ensures p in m && p > 0
  {
    PageAt(m, o, p);
  }

  lemma OtherOk(m: Memory, o: Owners, p: nat)
    requires p in m && p > 0 && RoleIs(o, p, Other)
    ensures PageOk(m, o, p)
  {
  }

  lemma OnlyLeaf(m: Memory, o: Owners, d: nat, v: nat, q: nat)
    requires PagesOk(m, o) && q in o && v < ALL_PAGES && q != Lookup(m, d, v).page
    ensures o[q] != Leaf(d, v)
  {
    PageAt(m, o, q);
  }

  /** Entries above the user part own nothing. */
  lemma MapKernel(m: Memory, o: Owners, d: nat, v: nat, x: Pte)
    requires PagesOk(m, o) && RoleIs(o, d, Dir) && USER_PAGES <= v < ALL_PAGES && HasTable(m, d, v / ENTRIES)
    ensures PagesOk(Mapped(m, d, v, x), o)
  {
    hide PageOk, Lookup;
    var r := Mapped(m, d, v, x);
    PageRange(m, o, d);
    forall q | q in o
      ensures PageOk(r, o, q)
    {
      if q == Entry(m, d, v / ENTRIES).page {
        MappedTable(m, o, o, d, v, x, 0);
      } else {
        PageRange(m, o, q);
        MappedPage(m, o, o, d, v, x, q, 0);
      }
    }
  }

  lemma PageRange(m: Memory, o: Owners, q: nat)
    requires PagesOk(m, o) && q in o
    ensures q > 0 && (o[q].Leaf? ==> o[q].v < USER_PAGES)
    ensures 0 !in o
  {
    PageAt(m, o, q);
  }

  // ---- pages outside all spaces

  /** A page that is free or held may change its contents and change between the
      two. */
  lemma Loose(m: Memory, o: Owners, p: nat, c: Content, role: Role)
    requires PagesOk(m, o) && p in o && (o[p] == Free || o[p] == Other)
    requires role == Other || (role == Free && c.Link?)
    ensures PagesOk(m[p := c], o[p := role])
    ensures forall d: nat, v: nat :: RoleIs(o, d, Dir) && v < ALL_PAGES ==> Lookup(m[p := c], d, v) == Lookup(m, d, v)
  {
    hide PageOk, Lookup;
    var r, s := m[p := c], o[p := role];
    forall d: nat, v: nat | RoleIs(o, d, Dir) && v < ALL_PAGES
      ensures Lookup(r, d, v) == Lookup(m, d, v)
    {
      LooseLookup(m, o, p, c, d, v);
    }
    forall q | q in s
      ensures PageOk(r, s, q)
    {
      LoosePage(m, o, p, c, role, q);
    }
  }

  lemma LooseLookup(m: Memory, o: Owners, p: nat, c: Content, d: nat, v: nat)
    requires PagesOk(m, o) && p in o && (o[p] == Free || o[p] == Other) && RoleIs(o, d, Dir) && v < ALL_PAGES
    ensures Lookup(m[p := c], d, v) == Lookup(m, d, v)
    ensures forall i :: 0 <= i < ENTRIES ==> (HasTable(m[p := c], d, i) <==> HasTable(m, d, i))
  {
    var r := m[p := c];
    forall i | 0 <= i < ENTRIES
      ensures HasTable(r, d, i) <==> HasTable(m, d, i)
      ensures HasTable(m, d, i) ==> Entry(r, d, i) == Entry(m, d, i) && r[Entry(m, d, i).page] == m[Entry(m, d, i).page]
    {
      TableAt(m, o, d, i);
    }
  }

  lemma LoosePage(m: Memory, o: Owners, p: nat, c: Content, role: Role, q: nat)
    requires PagesOk(m, o) && p in o && (o[p] == Free || o[p] == Other) && q in o
    requires role == Other || (role == Free && c.Link?)
    ensures PageOk(m[p := c], o[p := role], q)
  {
    hide Lookup, PagesOk;
    var r, s := m[p := c], o[p := role];
    PageAt(m, o, q);
    if q != p {
      match o[q]
      case Leaf(d, v) =>
        LooseLookup(m, o, p, c, d, v);
        assert LeafOk(r, s, q, d, v);
      case Tab(d, k) =>
        if k < USER_TABLES {
          NamesKept(m, o, q, d, k, r, s);
        }
        assert Entry(r, d, k) == Entry(m, d, k);
        assert TabOk(r, s, q, d, k);
      case Dir => assert DirOk(r, s, q);
      case _ =>
    }
  }

  // ---- whole spaces come and go

  lemma NewDir(m: Memory, o: Owners, p: nat)
    requires PagesOk(m, o) && RoleIs(o, p, Other)
    ensures PagesOk(m[p := ZeroTable()], o[p := Dir])
    ensures NoneMapped(m[p := ZeroTable()], p, 0, ALL_PAGES)
  {
    hide PageOk;
    var r, s := m[p := ZeroTable()], o[p := Dir];
    PageNamed(m, o, p);
    forall q | q in s
      ensures PageOk(r, s, q)
    {
      if q == p {
        assert PageOk(r, s, q) by { EmptyDir(r, s, p); }
      } else {
        LoosePage(m, o, p, ZeroTable(), Other, q);
        NewDirPage(r, o[p := Other], s, p, q);
      }
    }
  }

  lemma EmptyDir(m: Memory, o: Owners, p: nat)
    requires p in m && m[p] == ZeroTable() && RoleIs(o, p, Dir) && p > 0
    ensures PageOk(m, o, p)
  {
    assert DirOk(m, o, p);
  }

  lemma NewDirPage(m: Memory, o: Owners, s: Owners, p: nat, q: nat)
    requires RoleIs(o, p, Other) && s == o[p := Dir] && q in o && q != p && PageOk(m, o, q)
    ensures PageOk(m, s, q)
  {
    match o[q]
    case Tab(d, k) =>
      if k < USER_TABLES {
        NamesKept(m, o, q, d, k, m, s);
      }
      assert TabOk(m, s, q, d, k);
    case Leaf(d, v) => assert LeafOk(m, s, q, d, v);
    case Dir => assert DirOk(m, s, q);
    case _ =>
  }

  /** The pages of d are in nobody's space any more. */
  ghost function Dissolved(o: Owners, d: nat): (s: Owners)
    ensures s.Keys == o.Keys
    ensures forall p :: p in o ==> s[p] == if InSpace(o, p, d) then Other else o[p]
  {
    map p | p in o :: if InSpace(o, p, d) then Other else o[p]
  }

  lemma DissolvedOk(m: Memory, o: Owners, d: nat)
    requires PagesOk(m, o)
    ensures PagesOk(m, Dissolved(o, d))
  {
    hide PageOk;
    forall q | q in o
      ensures PageOk(m, Dissolved(o, d), q)
    {
      DissolvedPage(m, o, d, q);
    }
  }

  lemma DissolvedPage(m: Memory, o: Owners, d: nat, q: nat)
    requires PagesOk(m, o) && q in o
    ensures PageOk(m, Dissolved(o, d), q)
  {
    hide PagesOk, Lookup;
    PageAt(m, o, q);
    var s := Dissolved(o, d);
    match o[q]
    case Tab(d2, k) =>
      if d2 != d {
        if k < USER_TABLES {
          DissolvedNames(m, o, d, q, d2, k);
        }
        assert TabOk(m, s, q, d2, k);
      }
    case Leaf(d2, v) =>
      if d2 != d {
        assert LeafOk(m, s, q, d2, v);
      }
    case Dir =>
      if q != d {
        assert DirOk(m, s, q);
      }
    case _ =>
  }

  lemma DissolvedNames(m: Memory, o: Owners, d: nat, q: nat, d2: nat, k: nat)
    requires IsTable(m, q) && NamesOwn(m, o, q, d2, k) && d2 != d
    ensures NamesOwn(m, Dissolved(o, d), q, d2, k)
  {
    forall j | 0 <= j < ENTRIES && Entry(m, q, j).present
      ensures RoleIs(Dissolved(o, d), Entry(m, q, j).page, Leaf(d2, k * ENTRIES + j))
    {
      assert RoleIs(o, Entry(m, q, j).page, Leaf(d2, k * ENTRIES + j));
    }
  }

  // ---- what an operation on one space leaves alone

  /** Roles: free pages may have joined space d, nothing else has changed. */
  ghost predicate Spaced(o: Owners, s: Owners, d: nat) {
    s.Keys == o.Keys && forall q :: q in o ==> if o[q] == Free then s[q] == Free || InSpace(s, q, d) else s[q] == o[q]
  }

  /** Contents: user data everywhere, all other spaces and all held pages. */
  ghost predicate SameData(m: Memory, o: Owners, r: Memory, d: nat) {
    forall q :: q in o && o[q] != Free && !(q == d && o[q] == Dir) && !(o[q].Tab? && o[q].d == d) ==> q in m && q in r && r[q] == m[q]
  }

  lemma SameDataSelf(m: Memory, o: Owners, d: nat)
    requires PagesOk(m, o)
    ensures SameData(m, o, m, d) && Spaced(o, o, d)
  {
    forall q | q in o
      ensures q in m
    {
      PageAt(m, o, q);
    }
  }

  lemma SpacedTwice(o: Owners, s: Owners, t: Owners, d: nat)
    requires Spaced(o, s, d) && Spaced(s, t, d)
    ensures Spaced(o, t, d)
  {
  }

  lemma SameDataTwice(m: Memory, o: Owners, r: Memory, s: Owners, u: Memory, d: nat)
    requires Spaced(o, s, d) && SameData(m, o, r, d) && SameData(r, s, u, d)
    ensures SameData(m, o, u, d)
  {
  }

  /** Every other space translates as before. */
  ghost predicate OthersSame(m: Memory, o: Owners, r: Memory, d: nat) {
    forall d2, v: nat :: RoleIs(o, d2, Dir) && d2 != d && v < ALL_PAGES ==> Lookup(r, d2, v) == Lookup(m, d2, v)
  }

  lemma OthersTranslate(m: Memory, o: Owners, r: Memory, d: nat, d2: nat, v: nat)
    requires PagesOk(m, o) && RoleIs(o, d2, Dir) && v < ALL_PAGES && d2 in r && r[d2] == m[d2]
    requires forall q :: q in o && o[q].Tab? && o[q].d == d2 ==> q in m && q in r && r[q] == m[q]
    ensures Lookup(r, d2, v) == Lookup(m, d2, v)
  {
    TableAt(m, o, d2, v / ENTRIES);
    if Entry(m, d2, v / ENTRIES).present {
      assert r[Entry(m, d2, v / ENTRIES).page] == m[Entry(m, d2, v / ENTRIES).page];
    }
  }

  /** Their directories and tables are none of the pages that may change. */
  lemma OthersKept(m: Memory, o: Owners, r: Memory, d: nat, lo: nat, hi: nat)
    requires PagesOk(m, o) && (SameData(m, o, r, d) || SameDataBut(m, o, r, d, lo, hi))
    ensures OthersSame(m, o, r, d)
  {
    hide PagesOk, Lookup;
    forall d2, v: nat | RoleIs(o, d2, Dir) && d2 != d && v < ALL_PAGES
      ensures Lookup(r, d2, v) == Lookup(m, d2, v)
    {
      assert d2 in r && r[d2] == m[d2];
      OthersTranslate(m, o, r, d, d2, v);
    }
  }

  // ---- consecutive pages that were held and are now mapped

  /** s with the n pages from lo on back in other hands. */
  ghost function Released(s: Owners, lo: nat, n: nat): (r: Owners)
    ensures r.Keys == s.Keys
  {
    map q | q in s :: if lo <= q < lo + n then Other else s[q]
  }

  ghost predicate AllHeld(m: Memory, o: Owners, lo: nat, n: nat) {
    forall q :: lo <= q < lo + n ==> RoleIs(o, q, Other) && q in m && m[q].Data?
  }

  /** Between o and s the n pages from lo on have become the space's pages from v0
      on; apart from that free pages may have joined it. */
  ghost predicate Joined(o: Owners, s: Owners, d: nat, lo: nat, v0: nat, n: nat) {
    && Spaced(o, Released(s, lo, n), d)
    && forall q :: lo <= q < lo + n ==> JoinedAt(s, d, lo, v0, q)
  }

  ghost predicate JoinedAt(s: Owners, d: nat, lo: nat, v0: nat, q: nat)
    requires lo <= q
  {
    RoleIs(s, q, Leaf(d, v0 + q - lo))
  }

  lemma JoinedNone(o: Owners, d: nat, lo: nat, v0: nat)
    ensures Joined(o, o, d, lo, v0, 0)
  {
    assert Released(o, lo, 0) == o;
  }

  lemma JoinedFew(o: Owners, s: Owners, d: nat, p: nat, v0: nat, n: nat)
    requires Joined(o, s, d, p, v0, n)
    ensures n == 0 ==> Spaced(o, s, d)
    ensures n == 1 ==> RoleIs(s, p, Leaf(d, v0)) && Spaced(o, s[p := Other], d)
  {
    assert n == 0 ==> Released(s, p, 0) == s;
    assert n == 1 ==> JoinedAt(s, d, p, v0, p);
    assert n == 1 ==> Released(s, p, 1) == s[p := Other];
  }

  /** One more page, or none, from s to t. */
  lemma JoinedMore(m: Memory, o: Owners, r: Memory, s: Owners, u: Memory, t: Owners, d: nat, lo: nat, v0: nat, n: nat, more: nat)
    requires more <= 1 && AllHeld(m, o, lo, n + more) && Joined(o, s, d, lo, v0, n) && Joined(s, t, d, lo + n, v0 + n, more)
    requires SameData(m, o, r, d) && SameData(r, s, u, d)
    ensures Joined(o, t, d, lo, v0, n + more) && SameData(m, o, u, d)
  {
    var a, b, c := Released(s, lo, n), Released(t, lo, n + more), Released(t, lo + n, more);
    forall q | q in o
      ensures if o[q] == Free then b[q] == Free || InSpace(b, q, d) else b[q] == o[q]
    {
      assert q in s && q in t && a[q] == if lo <= q < lo + n then Other else s[q];
      if lo <= q < lo + n + more {
        assert o[q] == Other && b[q] == Other;
      } else {
        assert c[q] == t[q] == b[q];
        assert InSpace(a, q, d) <==> InSpace(s, q, d);
        assert InSpace(c, q, d) <==> InSpace(b, q, d);
      }
    }
    forall q | lo <= q < lo + n + more
      ensures JoinedAt(t, d, lo, v0, q)
    {
      if q < lo + n {
        assert JoinedAt(s, d, lo, v0, q) && c[q] == t[q];
      } else {
        assert JoinedAt(t, d, lo + n, v0 + n, q);
      }
    }
    JoinedData(m, o, r, s, u, d, lo, v0, n);
  }

  lemma JoinedData(m: Memory, o: Owners, r: Memory, s: Owners, u: Memory, d: nat, lo: nat, v0: nat, n: nat)
    requires Joined(o, s, d, lo, v0, n) && AllHeld(m, o, lo, n) && SameData(m, o, r, d) && SameData(r, s, u, d)
    ensures SameData(m, o, u, d)
  {
    forall q | q in o && o[q] != Free && !(q == d && o[q] == Dir) && !(o[q].Tab? && o[q].d == d)
      ensures q in m && q in u && u[q] == m[q]
    {
      if lo <= q < lo + n {
        assert JoinedAt(s, d, lo, v0, q);
      } else {
        assert Released(s, lo, n)[q] == s[q] == o[q];
      }
    }
  }

  // ---- the free list

  ghost predicate LinkOk(m: Memory, free: seq<nat>, i: nat)
    requires i < |free|
  {
    free[i] in m && m[free[i]] == Link(if i + 1 < |free| then free[i + 1] else 0)
  }

  /** The list starting at head threads exactly the free pages, each once. */
  ghost predicate FreeOk(m: Memory, o: Owners, free: seq<nat>, head: nat) {
    && head == (if free == [] then 0 else free[0])
    && Distinct(free) && (forall i :: 0 <= i < |free| ==> LinkOk(m, free, i))
    && (forall p :: p in free ==> RoleIs(o, p, Free))
    && (forall p :: p in o && o[p] == Free ==> p in free)
  }

  lemma PopOk(m: Memory, o: Owners, free: seq<nat>, head: nat)
    requires FreeOk(m, o, free, head) && free != []
    ensures LinkOk(m, free, 0) && RoleIs(o, head, Free) && FreeOk(m, o[head := Other], free[1..], m[head].next)
  {
    assert LinkOk(m, free, 0);
    var rest := free[1..];
    forall i | 0 <= i < |rest|
      ensures LinkOk(m, rest, i)
    {
      assert LinkOk(m, free, i + 1);
    }
    forall p | p in rest
      ensures RoleIs(o[head := Other], p, Free)
    {
      var i :| 0 <= i < |rest| && rest[i] == p;
      assert free[0] != free[i + 1] && p in free;
    }
    forall p | p in o[head := Other] && o[head := Other][p] == Free
      ensures p in rest
    {
      assert p in free;
      var i :| 0 <= i < |free| && free[i] == p;
      assert rest[i - 1] == p;
    }
  }

  lemma PushOk(m: Memory, o: Owners, free: seq<nat>, head: nat, p: nat)
    requires FreeOk(m, o, free, head) && RoleIs(o, p, Other)
    ensures FreeOk(m[p := Link(head)], o[p := Free], [p] + free, p)
  {
    var r, all := m[p := Link(head)], [p] + free;
    assert p !in free;
    forall i | 0 <= i < |all|
      ensures LinkOk(r, all, i)
    {
      if i > 0 {
        assert LinkOk(m, free, i - 1) && free[i - 1] != p;
      }
    }
  }

  /** Changing pages and roles that are not free leaves the list alone. */
  lemma ListKept(m: Memory, o: Owners, free: seq<nat>, head: nat, r: Memory, s: Owners)
    requires FreeOk(m, o, free, head) && s.Keys == o.Keys
    requires forall q :: q in o ==> (o[q] == Free <==> s[q] == Free) && (o[q] == Free && q in m ==> q in r && r[q] == m[q])
    ensures FreeOk(r, s, free, head)
  {
    forall i | 0 <= i < |free|
      ensures LinkOk(r, free, i)
    {
      assert LinkOk(m, free, i) && free[i] in free;
    }
  }

  // ---- shrinking a space

  ghost predicate InRange(r: Role, d: nat, lo: nat, hi: nat) {
    r.Leaf? && r.d == d && lo <= r.v < hi
  }

  /** The user pages of d from lo up to hi have been freed, nothing else. */
  ghost predicate Shrunk(o: Owners, s: Owners, d: nat, lo: nat, hi: nat) {
    s.Keys == o.Keys && forall q :: q in o ==> s[q] == if InRange(o[q], d, lo, hi) then Free else o[q]
  }

  ghost predicate SameDataBut(m: Memory, o: Owners, r: Memory, d: nat, lo: nat, hi: nat) {
    forall q :: q in o && o[q] != Free && !(q == d && o[q] == Dir) && !(o[q].Tab? && o[q].d == d) && !InRange(o[q], d, lo, hi) ==>
      q in m && q in r && r[q] == m[q]
  }

  /** Below a missing table there are no pages to free. */
  lemma SkipTable(m: Memory, o: Owners, d: nat, i: nat, u: nat)
    requires PagesOk(m, o) && i < ENTRIES && !HasTable(m, d, i) && u / ENTRIES == i && u < ALL_PAGES
    ensures !Lookup(m, d, u).present && forall q :: q in o ==> o[q] != Leaf(d, u)
  {
    forall q | q in o
      ensures o[q] != Leaf(d, u)
    {
      PageAt(m, o, q);
    }
  }

  lemma AbsentNoLeaf(m: Memory, o: Owners, d: nat, u: nat)
    requires PagesOk(m, o) && u < ALL_PAGES && !Lookup(m, d, u).present
    ensures forall q :: q in o ==> o[q] != Leaf(d, u)
  {
    forall q | q in o
      ensures o[q] != Leaf(d, u)
    {
      PageAt(m, o, q);
    }
  }

  lemma LeafOnly(m: Memory, o: Owners, d: nat, u: nat)
    requires PagesOk(m, o) && u < USER_PAGES && RoleIs(o, d, Dir) && Lookup(m, d, u).present
    ensures forall q :: q in o ==> (o[q] == Leaf(d, u) <==> q == Lookup(m, d, u).page)
  {
    UserEntry(m, o, d, u);
    forall q | q in o && o[q] == Leaf(d, u)
      ensures q == Lookup(m, d, u).page
    {
      PageAt(m, o, q);
    }
  }

  lemma ShrunkTwice(o: Owners, s: Owners, t: Owners, d: nat, lo: nat, mid: nat, hi: nat)
    requires Shrunk(o, s, d, lo, mid) && Shrunk(s, t, d, mid, hi) && lo <= mid <= hi
    ensures Shrunk(o, t, d, lo, hi)
  {
  }

  lemma SameDataButTwice(m: Memory, o: Owners, r: Memory, s: Owners, u: Memory, d: nat, lo: nat, mid: nat, hi: nat)
    requires Shrunk(o, s, d, lo, mid) && lo <= mid <= hi
    requires SameDataBut(m, o, r, d, lo, mid) && SameDataBut(r, s, u, d, mid, hi)
    ensures SameDataBut(m, o, u, d, lo, hi)
  {
  }

  /** Nothing to free from a on, up to b. */
  lemma ShrunkIdle(o: Owners, s: Owners, d: nat, lo: nat, a: nat, b: nat)
    requires Shrunk(o, s, d, lo, a) && lo <= a <= b && forall u: nat, q :: a <= u < b && q in s ==> s[q] != Leaf(d, u)
    ensures Shrunk(o, s, d, lo, b)
  {
    forall q | q in o
      ensures !InRange(o[q], d, a, b)
    {
      assert s[q] == o[q] || InRange(o[q], d, lo, a);
    }
  }

  // ---- freeing a space

  /** The tables of the first i directory entries are free; the rest of what was
      space d is held. */
  ghost predicate TablesFreed(o: Owners, s: Owners, d: nat, i: nat) {
    s.Keys == o.Keys &&
    forall q :: q in o ==> s[q] == if o[q].Tab? && o[q].d == d && o[q].i < i then Free else if InSpace(o, q, d) then Other else o[q]
  }

  lemma TablesStart(o: Owners, d: nat)
    ensures TablesFreed(o, Dissolved(o, d), d, 0)
  {
  }

  /** Entry i of the directory decides which page goes next. */
  lemma TablesNext(m: Memory, o: Owners, s: Owners, d: nat, i: nat)
    requires PagesOk(m, o) && RoleIs(o, d, Dir) && i < ENTRIES && TablesFreed(o, s, d, i) && IsTable(m, d)
    ensures Entry(m, d, i).present ==>
              && RoleIs(s, Entry(m, d, i).page, Other) && Entry(m, d, i).page != d
              && TablesFreed(o, s[Entry(m, d, i).page := Free], d, i + 1)
    ensures !Entry(m, d, i).present ==> TablesFreed(o, s, d, i + 1)
  {
    hide PagesOk;
    TableAt(m, o, d, i);
    forall q | q in o && o[q] == Tab(d, i)
      ensures Entry(m, d, i).present && q == Entry(m, d, i).page
    {
      PageAt(m, o, q);
    }
  }

  lemma TablesEnd(m: Memory, o: Owners, s: Owners, d: nat)
    requires PagesOk(m, o) && RoleIs(o, d, Dir) && TablesFreed(o, s, d, ENTRIES)
    requires forall q :: q in o ==> !(o[q].Leaf? && o[q].d == d)
    ensures RoleIs(s, d, Other) && SpaceFreed(o, s[d := Free], d)
  {
    hide PagesOk;
    forall q | q in o && o[q].Tab? && o[q].d == d
      ensures o[q].i < ENTRIES
    {
      PageAt(m, o, q);
    }
  }

  /** Exactly the pages of space d have become free. */
  ghost predicate SpaceFreed(o: Owners, s: Owners, d: nat) {
    s.Keys == o.Keys && forall q :: q in o ==> s[q] == if InSpace(o, q, d) then Free else o[q]
  }

  lemma ShrunkThenFreed(o: Owners, s: Owners, t: Owners, d: nat, hi: nat)
    requires Shrunk(o, s, d, 0, hi) && SpaceFreed(s, t, d) && forall q :: q in o && o[q].Leaf? ==> o[q].v < hi
    ensures SpaceFreed(o, t, d)
  {
  }

  /** Contents of everything outside space d and the free pages. */
  ghost predicate OutsideSame(m: Memory, o: Owners, r: Memory, d: nat) {
    forall q :: q in o && o[q] != Free && !InSpace(o, q, d) ==> q in m && q in r && r[q] == m[q]
  }

  /** A new space that is freed again leaves no trace. */
  lemma SpacedThenFreed(o: Owners, s: Owners, t: Owners, d: nat)
    requires Spaced(o, s, d) && SpaceFreed(s, t, d) && RoleIs(o, d, Free)
    requires forall q :: q in o ==> !InSpace(o, q, d)
    ensures t == o
  {
  }
}
