/** The directory tree: link, unlink, create and the release of unlinked inodes,
    and what nlink counts. */
module LinkCounts {

  import opened Blocks
  import opened Dirents
  import FileSystem

  const ROOT := 1

  /** Plain files, the other files (devices, symbolic links, extent files), and
      directories. */
  datatype Kind = Regular | Special | Folder

  const SHORT_MAX := 0x7fff

  /** A C short; nlink is one. */
  type short = x: int | -0x8000 <= x <= SHORT_MAX

  /** Conversion to it, which drops the upper bits. */
  function Short(x: int): (r: short)
    ensures -0x8000 <= x <= SHORT_MAX ==> r == x
  {
    (x + 0x8000) % 0x1_0000 - 0x8000
  }

  /** Counting up or down modulo 2^16. */
  lemma ShortSteps(x: int)
    ensures Short(Short(x) + 1) == Short(x + 1) && Short(Short(x) - 1) == Short(x - 1)
    ensures Short(x + 1) != Short(x)
    ensures Short(Short(x + 1) - 1) == Short(x)
  {
  }

  datatype Node = Node(kind: Kind, nlink: short, dir: Directory)

  /** The allocated inodes. */
  type Nodes = map<nat, Node>

  function Dot(): (t: seq<byte>) {
    [46]
  }

  function DotDot(): (t: seq<byte>) {
    [46, 46]
  }

  /** A directory that still has links. */
  ghost predicate Linked(ns: Nodes, d: nat) {
    d in ns && ns[d].kind == Folder && ns[d].nlink > 0
  }

  /** Entry k of directory d counts towards the links of inode i. */
  ghost predicate IsRef(ns: Nodes, i: nat, d: nat, k: nat) {
    Linked(ns, d) && k < |ns[d].dir| && ns[d].dir[k].inum == i && Text(ns[d].dir[k].name) != Dot()
  }

  /** The entries in directories that still have links and that name i, without
      the "." entries. */
  ghost function Refs(ns: Nodes, i: nat): (s: set<(nat, nat)>)
    ensures forall d: nat, k: nat :: (d, k) in s <==> IsRef(ns, i, d, k)
  {
    set d, k | d in ns && 0 <= k < |ns[d].dir| && IsRef(ns, i, d, k) :: (d, k)
  }

  lemma RefsAre(ns: Nodes, i: nat, s: set<(nat, nat)>)
    requires forall d: nat, k: nat :: IsRef(ns, i, d, k) <==> (d, k) in s
    ensures Refs(ns, i) == s
  {
    forall x | x in Refs(ns, i) || x in s
      ensures x in Refs(ns, i) && x in s
    {
      assert x == (x.0, x.1);
      assert IsRef(ns, i, x.0, x.1) <==> (x.0, x.1) in s;
    }
  }

  // ---- the shape of the tree

  /** "." first, then "..", and no name twice. */
  ghost predicate DotsOk(ns: Nodes, d: nat)
    requires d in ns
  {
    var dir := ns[d].dir;
    && |dir| >= 2 && Unique(dir)
    && dir[0].inum == d && Text(dir[0].name) == Dot()
    && Text(dir[1].name) == DotDot() && Linked(ns, dir[1].inum) && dir[1].inum != 0
  }

  ghost predicate NamedHere(ns: Nodes, p: nat, c: nat, k: nat) {
    p in ns && 2 <= k < |ns[p].dir| && ns[p].dir[k].inum == c
  }

  /** A directory other than the root is named in its parent. */
  ghost predicate ParentOk(ns: Nodes, d: nat)
    requires d in ns && |ns[d].dir| >= 2
  {
    if d == ROOT then ns[d].dir[1].inum == ROOT
    else exists k :: NamedHere(ns, ns[d].dir[1].inum, d, k)
  }

  /** Entry k names an allocated inode; if that is a directory, d is its parent,
      and names it only once. */
  ghost predicate EntryOk(ns: Nodes, d: nat, k: nat)
    requires d in ns && k < |ns[d].dir|
  {
    var c := ns[d].dir[k].inum;
    c != 0 ==>
      && c in ns
      && (k >= 2 && ns[c].kind == Folder ==>
            && c != ROOT && c != d && Linked(ns, c) && |ns[c].dir| >= 2 && ns[c].dir[1].inum == d
            && forall j :: 2 <= j < |ns[d].dir| && ns[d].dir[j].inum == c ==> j == k)
  }

  ghost predicate DirOk(ns: Nodes, d: nat)
    requires d in ns
  {
    DotsOk(ns, d) && ParentOk(ns, d) && forall k :: 0 <= k < |ns[d].dir| ==> EntryOk(ns, d, k)
  }

  /** A directory without links, which some process may still be in. */
  ghost predicate Gone(ns: Nodes, d: nat) {
    d in ns && ns[d].kind == Folder && ns[d].nlink <= 0
  }

  /** Only its dots are left. */
  ghost predicate GoneOk(ns: Nodes, d: nat)
    requires d in ns
  {
    var dir := ns[d].dir;
    && |dir| >= 2 && Unique(dir) && EmptyDir(dir)
    && dir[0].inum == d && Text(dir[0].name) == Dot()
    && dir[1].inum != 0 && Text(dir[1].name) == DotDot()
  }

  ghost predicate EmptyDir(dir: Directory) {
    forall j :: 2 <= j < |dir| ==> dir[j].inum == 0
  }

  ghost predicate ShapeOk(ns: Nodes) {
    && 0 !in ns && Linked(ns, ROOT)
    && (forall d {:trigger DirOk(ns, d)} :: Linked(ns, d) ==> DirOk(ns, d))
    && (forall d {:trigger GoneOk(ns, d)} :: Gone(ns, d) ==> GoneOk(ns, d))
  }

  /** nlink counts the entries, those of files modulo 2^16. */
  ghost predicate CountIs(ns: Nodes, i: nat)
    requires i in ns
  {
    if ns[i].kind == Folder then ns[i].nlink == |Refs(ns, i)| else ns[i].nlink == Short(|Refs(ns, i)|)
  }

  ghost predicate CountsOk(ns: Nodes) {
    forall i {:trigger CountIs(ns, i)} :: i in ns ==> CountIs(ns, i)
  }

  ghost predicate TreeOk(ns: Nodes) {
    ShapeOk(ns) && CountsOk(ns)
  }

  /** No count has wrapped around: nlink is the number of entries. */
  ghost predicate Exact(ns: Nodes) {
    TreeOk(ns) && forall i {:trigger CountIs(ns, i)} :: i in ns ==> ns[i].nlink == |Refs(ns, i)|
  }

  /** The file system that mkfs makes with no files. */
  lemma EmptyTree(dot: Name, dotdot: Name)
    requires Text(dot) == Dot() && Text(dotdot) == DotDot()
    ensures Exact(map[ROOT := Node(Folder, 1, [Dirent(ROOT, dot), Dirent(ROOT, dotdot)])])
  {
    var ns := map[ROOT := Node(Folder, 1, [Dirent(ROOT, dot), Dirent(ROOT, dotdot)])];
    assert DirOk(ns, ROOT);
    assert Refs(ns, ROOT) == {(ROOT, 1)};
    assert CountIs(ns, ROOT);
  }

  // ---- what the invariant says about names

  /** In a directory with links no entry but the first two is "." or "..". */
  lemma DotsOnly(ns: Nodes, d: nat, k: nat)
    requires d in ns && d != 0 && DotsOk(ns, d) && k < |ns[d].dir| && ns[d].dir[k].inum != 0
    ensures Text(ns[d].dir[k].name) == Dot() <==> k == 0
    ensures Text(ns[d].dir[k].name) == DotDot() <==> k == 1
  {
  }

  lemma ShapeAt(ns: Nodes, d: nat)
    requires ShapeOk(ns) && Linked(ns, d)
    ensures d != 0 && DirOk(ns, d) && DotsOk(ns, d) && ParentOk(ns, d)
    ensures forall k :: 0 <= k < |ns[d].dir| ==> EntryOk(ns, d, k)
  {
  }

  lemma GoneAt(ns: Nodes, d: nat)
    requires ShapeOk(ns) && Gone(ns, d)
    ensures d != 0 && d != ROOT && GoneOk(ns, d) && Unique(ns[d].dir)
  {
  }

  /** Names are unique in every directory. */
  lemma UniqueIn(ns: Nodes, d: nat)
    requires ShapeOk(ns) && d in ns && ns[d].kind == Folder
    ensures Unique(ns[d].dir)
  {
    if Linked(ns, d) {
      ShapeAt(ns, d);
    } else {
      GoneAt(ns, d);
    }
  }

  /** An empty directory that is named in d at k has that one link. */
  lemma EmptyHasOneLink(ns: Nodes, d: nat, k: nat, c: nat)
    requires TreeOk(ns) && Linked(ns, d) && NamedHere(ns, d, c, k) && c in ns && ns[c].kind == Folder
    requires forall j :: 2 <= j < |ns[c].dir| ==> ns[c].dir[j].inum == 0
    ensures Refs(ns, c) == {(d, k)} && ns[c].nlink == 1 && c != d
  {
    hide ShapeOk, DotsOk, ParentOk, DirOk, Refs;
    ShapeAt(ns, d);
    assert EntryOk(ns, d, k) && 0 !in ns by { NoZero(ns); }
    forall d2: nat, k2: nat | IsRef(ns, c, d2, k2)
      ensures d2 == d && k2 == k
    {
      OnlyRef(ns, d, k, c, d2, k2);
    }
    DotsOnly(ns, d, k);
    assert IsRef(ns, c, d, k);
    RefsAre(ns, c, {(d, k)});
    assert CountIs(ns, c);
    EmptyNotParent(ns, d, k, c);
  }

  lemma NoZero(ns: Nodes)
    requires ShapeOk(ns)
    ensures 0 !in ns
  {
  }

  lemma EmptyNotParent(ns: Nodes, d: nat, k: nat, c: nat)
    requires NamedHere(ns, d, c, k) && c != 0 && c in ns
    requires forall j :: 2 <= j < |ns[c].dir| ==> ns[c].dir[j].inum == 0
    ensures c != d
  {
  }

  lemma OnlyRef(ns: Nodes, d: nat, k: nat, c: nat, d2: nat, k2: nat)
    requires ShapeOk(ns) && Linked(ns, d) && NamedHere(ns, d, c, k) && c in ns && ns[c].kind == Folder
    requires forall j :: 2 <= j < |ns[c].dir| ==> ns[c].dir[j].inum == 0
    requires IsRef(ns, c, d2, k2)
    ensures d2 == d && k2 == k
  {
    hide ShapeOk;
    NoZero(ns);
    ShapeAt(ns, d);
    ShapeAt(ns, d2);
    assert EntryOk(ns, d, k) && EntryOk(ns, d2, k2);
    ShapeAt(ns, c);
    DotsOnly(ns, d2, k2);
  }

  // ---- one slot of one directory changes

  /** Slot k of d, past the dots, gets e; kinds and all other directories stay, and
      so does who is linked, except perhaps c. */
  ghost predicate SlotSet(ns: Nodes, r: Nodes, d: nat, k: nat, e: Dirent, c: nat) {
    && r.Keys == ns.Keys && Linked(ns, d) && 2 <= k <= |ns[d].dir| && c != d
    && forall x :: x in ns ==> SlotAt(ns, r, d, k, e, c, x)
  }

  ghost predicate SlotAt(ns: Nodes, r: Nodes, d: nat, k: nat, e: Dirent, c: nat, x: nat)
    requires x in ns && x in r && d in ns && k <= |ns[d].dir|
  {
    && r[x].kind == ns[x].kind && (x != c ==> (Linked(r, x) <==> Linked(ns, x)))
    && r[x].dir == if x == d then Placed(ns[d].dir, k, e) else ns[x].dir
  }

  ghost predicate SlotFree(ns: Nodes, d: nat, k: nat)
    requires d in ns
  {
    k == |ns[d].dir| || (k < |ns[d].dir| && ns[d].dir[k].inum == 0)
  }

  /** The new directory keeps its entries outside slot k. */
  lemma SlotDir(ns: Nodes, r: Nodes, d: nat, k: nat, e: Dirent, c: nat, x: nat, j: nat)
    requires SlotSet(ns, r, d, k, e, c) && x in ns && j < |r[x].dir|
    ensures x == d && j == k ==> r[x].dir[j] == e
    ensures !(x == d && j == k) ==> j < |ns[x].dir| && r[x].dir[j] == ns[x].dir[j]
  {
    assert SlotAt(ns, r, d, k, e, c, x);
  }

  lemma SlotLonger(ns: Nodes, r: Nodes, d: nat, k: nat, e: Dirent, c: nat, x: nat)
    requires SlotSet(ns, r, d, k, e, c) && x in ns
    ensures |r[x].dir| >= |ns[x].dir| && r[x].kind == ns[x].kind
    ensures x != c ==> (Linked(r, x) <==> Linked(ns, x))
  {
    assert SlotAt(ns, r, d, k, e, c, x);
  }

  lemma SlotDots(ns: Nodes, r: Nodes, d: nat, k: nat, e: Dirent, c: nat, x: nat)
    requires SlotSet(ns, r, d, k, e, c) && x in ns && DotsOk(ns, x) && Unique(r[d].dir)
    requires ns[x].dir[1].inum == c ==> Linked(r, c)
    ensures DotsOk(r, x)
  {
    SlotLonger(ns, r, d, k, e, c, x);
    SlotLonger(ns, r, d, k, e, c, ns[x].dir[1].inum);
    SlotDir(ns, r, d, k, e, c, x, 0);
    SlotDir(ns, r, d, k, e, c, x, 1);
    assert SlotAt(ns, r, d, k, e, c, x);
  }

  /** A directory is still named in its parent unless it was named in the slot that
      changed. */
  lemma SlotParent(ns: Nodes, r: Nodes, d: nat, k: nat, e: Dirent, c: nat, x: nat)
    requires SlotSet(ns, r, d, k, e, c) && x in ns && |ns[x].dir| >= 2 && ParentOk(ns, x) && |r[x].dir| >= 2
    requires k < |ns[d].dir| ==> ns[d].dir[k].inum != x
    ensures ParentOk(r, x)
  {
    SlotDir(ns, r, d, k, e, c, x, 1);
    if x != ROOT {
      var p := ns[x].dir[1].inum;
      var j :| NamedHere(ns, p, x, j);
      SlotLonger(ns, r, d, k, e, c, p);
      SlotDir(ns, r, d, k, e, c, p, j);
      assert NamedHere(r, p, x, j);
    }
  }

  /** Entries elsewhere are as good as before, unless they name a directory that
      the changed slot names too. */
  lemma SlotEntry(ns: Nodes, r: Nodes, d: nat, k: nat, e: Dirent, c: nat, x: nat, j: nat)
    requires SlotSet(ns, r, d, k, e, c) && x in ns && j < |r[x].dir| && !(x == d && j == k)
    requires j < |ns[x].dir| ==> EntryOk(ns, x, j)
    requires x == d && e.inum in ns && r[x].dir[j].inum == e.inum && j >= 2 ==> ns[e.inum].kind != Folder
    requires r[x].dir[j].inum == c && j >= 2 ==> Linked(r, c)
    ensures EntryOk(r, x, j)
  {
    SlotDir(ns, r, d, k, e, c, x, j);
    var b := r[x].dir[j].inum;
    if b != 0 && j >= 2 && ns[b].kind == Folder {
      SlotLonger(ns, r, d, k, e, c, b);
      SlotDir(ns, r, d, k, e, c, b, 1);
      forall i | 2 <= i < |r[x].dir| && r[x].dir[i].inum == b
        ensures i == j
      {
        SlotDir(ns, r, d, k, e, c, x, i);
      }
    } else if b != 0 {
      SlotLonger(ns, r, d, k, e, c, b);
    }
  }

  lemma UniqueOf(ns: Nodes, d: nat)
    requires d in ns && DotsOk(ns, d)
    ensures Unique(ns[d].dir) && |ns[d].dir| >= 2
  {
  }

  lemma DirFrom(ns: Nodes, d: nat)
    requires d in ns && DotsOk(ns, d) && |ns[d].dir| >= 2 && ParentOk(ns, d)
    requires forall k :: 0 <= k < |ns[d].dir| ==> EntryOk(ns, d, k)
    ensures DirOk(ns, d)
  {
  }

  lemma ShapeFrom(ns: Nodes, r: Nodes)
    requires ShapeOk(ns) && r.Keys == ns.Keys && Linked(r, ROOT)
    requires forall x {:trigger DirOk(r, x)} :: Linked(r, x) ==> DirOk(r, x)
    requires forall x {:trigger GoneOk(r, x)} :: Gone(r, x) ==> GoneOk(r, x)
    ensures ShapeOk(r)
  {
  }

  /** Directories without links are not touched, except perhaps c. */
  lemma SlotGone(ns: Nodes, r: Nodes, d: nat, k: nat, e: Dirent, c: nat)
    requires ShapeOk(ns) && SlotSet(ns, r, d, k, e, c) && (Gone(r, c) ==> GoneOk(r, c))
    ensures forall x {:trigger GoneOk(r, x)} :: Gone(r, x) ==> GoneOk(r, x)
  {
    hide ShapeOk;
    forall x {:trigger GoneOk(r, x)} | Gone(r, x)
      ensures GoneOk(r, x)
    {
      if x != c {
        SlotLonger(ns, r, d, k, e, c, x);
        assert SlotAt(ns, r, d, k, e, c, x);
        GoneAt(ns, x);
      }
    }
  }

  lemma RootLinked(ns: Nodes)
    requires ShapeOk(ns)
    ensures Linked(ns, ROOT)
  {
  }

  // ---- links to files

  /** A new entry for a regular inode keeps the tree's shape. */
  lemma FileLinkShape(ns: Nodes, r: Nodes, d: nat, k: nat, e: Dirent)
    requires ShapeOk(ns) && SlotSet(ns, r, d, k, e, 0) && SlotFree(ns, d, k)
    requires e.inum in ns && ns[e.inum].kind != Folder && !Has(ns[d].dir, Text(e.name))
    ensures ShapeOk(r)
  {
    hide ShapeOk, DotsOk, ParentOk, EntryOk, DirOk;
    NoZero(ns);
    RootLinked(ns);
    SlotLonger(ns, r, d, k, e, 0, ROOT);
    ShapeAt(ns, d);
    UniqueOf(ns, d);
    assert SlotAt(ns, r, d, k, e, 0, d);
    PlacedFind(ns[d].dir, k, e, []);
    forall x | Linked(r, x)
      ensures DirOk(r, x)
    {
      SlotLonger(ns, r, d, k, e, 0, x);
      ShapeAt(ns, x);
      UniqueOf(ns, x);
      ParentNotZero(ns, x);
      SlotDots(ns, r, d, k, e, 0, x);
      SlotParent(ns, r, d, k, e, 0, x);
      forall j | 0 <= j < |r[x].dir|
        ensures EntryOk(r, x, j)
      {
        if x == d && j == k {
          NewEntry(ns, r, d, k, e);
        } else {
          SlotDir(ns, r, d, k, e, 0, x, j);
          ZeroEntry(r, x, j);
          if r[x].dir[j].inum != 0 {
            SlotEntry(ns, r, d, k, e, 0, x, j);
          }
        }
      }
      DirFrom(r, x);
    }
    SlotGone(ns, r, d, k, e, 0);
    ShapeFrom(ns, r);
  }

  lemma ParentNotZero(ns: Nodes, x: nat)
    requires x in ns && DotsOk(ns, x)
    ensures ns[x].dir[1].inum != 0
  {
  }

  lemma ZeroEntry(ns: Nodes, x: nat, j: nat)
    requires x in ns && j < |ns[x].dir|
    ensures ns[x].dir[j].inum == 0 ==> EntryOk(ns, x, j)
  {
  }

  lemma NewEntry(ns: Nodes, r: Nodes, d: nat, k: nat, e: Dirent)
    requires SlotSet(ns, r, d, k, e, 0) && e.inum in ns && ns[e.inum].kind != Folder && k < |r[d].dir|
    ensures EntryOk(r, d, k)
  {
    SlotDir(ns, r, d, k, e, 0, d, k);
    assert SlotAt(ns, r, d, k, e, 0, e.inum);
  }

  /** So does clearing the entry of a regular inode. */
  lemma FileUnlinkShape(ns: Nodes, r: Nodes, d: nat, k: nat)
    requires ShapeOk(ns) && SlotSet(ns, r, d, k, NoEntry(), 0) && k < |ns[d].dir|
    requires ns[d].dir[k].inum in ns && ns[ns[d].dir[k].inum].kind != Folder
    ensures ShapeOk(r)
  {
    hide ShapeOk, DotsOk, ParentOk, EntryOk, DirOk;
    var e := NoEntry();
    NoZero(ns);
    RootLinked(ns);
    SlotLonger(ns, r, d, k, e, 0, ROOT);
    ShapeAt(ns, d);
    UniqueOf(ns, d);
    assert SlotAt(ns, r, d, k, e, 0, d);
    ClearedFind(ns[d].dir, k, []);
    forall x | Linked(r, x)
      ensures DirOk(r, x)
    {
      SlotLonger(ns, r, d, k, e, 0, x);
      ShapeAt(ns, x);
      UniqueOf(ns, x);
      ParentNotZero(ns, x);
      SlotDots(ns, r, d, k, e, 0, x);
      SlotParent(ns, r, d, k, e, 0, x);
      forall j | 0 <= j < |r[x].dir|
        ensures EntryOk(r, x, j)
      {
        SlotDir(ns, r, d, k, e, 0, x, j);
        ZeroEntry(r, x, j);
        if r[x].dir[j].inum != 0 {
          SlotEntry(ns, r, d, k, e, 0, x, j);
        }
      }
      DirFrom(r, x);
    }
    SlotGone(ns, r, d, k, e, 0);
    ShapeFrom(ns, r);
  }

  /** References after slot k of d changed and nobody gained or lost all links. */
  lemma SlotRefs(ns: Nodes, r: Nodes, d: nat, k: nat, e: Dirent, i: nat)
    requires SlotSet(ns, r, d, k, e, 0) && 0 !in ns && i != 0 && Text(e.name) != Dot()
    ensures Refs(r, i) == (Refs(ns, i) - {(d, k)}) + if e.inum == i then {(d, k)} else {}
  {
    hide Refs;
    var s := (Refs(ns, i) - {(d, k)}) + if e.inum == i then {(d, k)} else {};
    forall d2: nat, k2: nat
      ensures IsRef(r, i, d2, k2) <==> (d2, k2) in s
    {
      if d2 in ns {
        SlotLonger(ns, r, d, k, e, 0, d2);
        assert SlotAt(ns, r, d, k, e, 0, d2);
        if k2 < |r[d2].dir| {
          SlotDir(ns, r, d, k, e, 0, d2, k2);
        }
      }
      assert (d2, k2) in Refs(ns, i) <==> IsRef(ns, i, d2, k2);
    }
    RefsAre(r, i, s);
  }

  ghost function Relinked(ns: Nodes, i: nat, delta: int): (r: Nodes)
    requires i in ns
  {
    ns[i := ns[i].(nlink := Short(ns[i].nlink + delta))]
  }

  ghost function Refiled(ns: Nodes, d: nat, k: nat, e: Dirent): (r: Nodes)
    requires d in ns && k <= |ns[d].dir|
  {
    ns[d := ns[d].(dir := Placed(ns[d].dir, k, e))]
  }

  ghost function FileLinked(ns: Nodes, d: nat, k: nat, e: Dirent): (r: Nodes)
    requires d in ns && k <= |ns[d].dir| && e.inum in ns
  {
    Refiled(Relinked(ns, e.inum, 1), d, k, e)
  }

  ghost function FileUnlinked(ns: Nodes, d: nat, k: nat): (r: Nodes)
    requires d in ns && k < |ns[d].dir| && ns[d].dir[k].inum in ns
  {
    Relinked(Refiled(ns, d, k, NoEntry()), ns[d].dir[k].inum, -1)
  }

  /** A free slot is past the dots, and a name that is not there is not a dot. */
  lemma FreeSlot(ns: Nodes, d: nat, k: nat, text: seq<byte>)
    requires ShapeOk(ns) && Linked(ns, d) && SlotFree(ns, d, k)
    ensures 2 <= k <= |ns[d].dir| && (!Has(ns[d].dir, text) ==> text != Dot() && text != DotDot())
  {
    ShapeAt(ns, d);
    NoZero(ns);
    assert NamedAt(ns[d].dir, 0, Dot()) && NamedAt(ns[d].dir, 1, DotDot());
  }

  lemma FileLink(ns: Nodes, d: nat, k: nat, e: Dirent)
    requires d in ns && k <= |ns[d].dir| && e.inum in ns
    requires TreeOk(ns) && Linked(ns, d) && SlotFree(ns, d, k)
    requires ns[e.inum].kind != Folder && !Has(ns[d].dir, Text(e.name))
    ensures TreeOk(FileLinked(ns, d, k, e))
    ensures forall j :: j in ns ==> |Refs(FileLinked(ns, d, k, e), j)| == |Refs(ns, j)| + if j == e.inum then 1 else 0
  {
    hide ShapeOk, Refs, CountIs;
    var i, r := e.inum, FileLinked(ns, d, k, e);
    FreeSlot(ns, d, k, Text(e.name));
    NoZero(ns);
    assert SlotSet(ns, r, d, k, e, 0);
    FileLinkShape(ns, r, d, k, e);
    forall j | j in r
      ensures CountIs(r, j) && |Refs(r, j)| == |Refs(ns, j)| + if j == e.inum then 1 else 0
    {
      assert CountIs(ns, j);
      FileLinkCount(ns, r, d, k, e, j);
    }
  }

  lemma FileLinkCount(ns: Nodes, r: Nodes, d: nat, k: nat, e: Dirent, j: nat)
    requires SlotSet(ns, r, d, k, e, 0) && SlotFree(ns, d, k) && 0 !in ns && Text(e.name) != Dot() && j in ns && CountIs(ns, j)
    requires r[j].kind == ns[j].kind && e.inum in ns && ns[e.inum].kind != Folder
    requires r[j].nlink == if j == e.inum then Short(ns[j].nlink + 1) else ns[j].nlink
    ensures CountIs(r, j) && |Refs(r, j)| == |Refs(ns, j)| + if j == e.inum then 1 else 0
  {
    hide Refs;
    ShortSteps(|Refs(ns, j)|);
    SlotRefs(ns, r, d, k, e, j);
    assert (d, k) in Refs(ns, j) <==> IsRef(ns, j, d, k);
    assert Refs(ns, j) - {(d, k)} == Refs(ns, j);
  }

  /** The counts stay right exactly when the directory still has links: an entry
      made in a directory that was already removed is not counted. They stay exact
      when, besides, the file has not yet as many links as a short can count. */
  lemma FileLinkExact(ns: Nodes, d: nat, k: nat, e: Dirent)
    requires d in ns && k <= |ns[d].dir| && e.inum in ns && ns[d].kind == Folder
    requires TreeOk(ns) && SlotFree(ns, d, k) && ns[e.inum].kind != Folder && !Has(ns[d].dir, Text(e.name))
    ensures TreeOk(FileLinked(ns, d, k, e)) <==> Linked(ns, d)
    ensures Exact(ns) ==> (Exact(FileLinked(ns, d, k, e)) <==> Linked(ns, d) && ns[e.inum].nlink < SHORT_MAX)
  {
    hide ShapeOk, Refs;
    var i, r := e.inum, FileLinked(ns, d, k, e);
    assert CountIs(ns, i);
    ShortSteps(|Refs(ns, i)|);
    if Linked(ns, d) {
      FileLink(ns, d, k, e);
      if Exact(ns) {
        ExactAfter(ns, r, i);
      }
    } else {
      forall d2: nat, k2: nat
        ensures IsRef(r, i, d2, k2) <==> (d2, k2) in Refs(ns, i)
      {
        assert (d2, k2) in Refs(ns, i) <==> IsRef(ns, i, d2, k2);
      }
      RefsAre(r, i, Refs(ns, i));
      assert !CountIs(r, i);
    }
  }

  lemma ExactAfter(ns: Nodes, r: Nodes, i: nat)
    requires Exact(ns) && TreeOk(r) && r.Keys == ns.Keys && i in ns
    requires forall j :: j in ns ==> |Refs(r, j)| == |Refs(ns, j)| + if j == i then 1 else 0
    requires forall j :: j in ns ==> r[j].nlink == if j == i then Short(ns[j].nlink + 1) else ns[j].nlink
    ensures Exact(r) <==> ns[i].nlink < SHORT_MAX
  {
    hide ShapeOk, Refs;
    assert CountIs(ns, i) && CountIs(r, i);
    forall j | j in r && ns[i].nlink < SHORT_MAX
      ensures r[j].nlink == |Refs(r, j)|
    {
      assert CountIs(ns, j);
    }
  }

  /** The 32768th link: the count turns negative, so that the next unlink of the file
      panics, although 32768 entries name it. */
  lemma LinkWraps(ns: Nodes, d: nat, k: nat, e: Dirent)
    requires d in ns && k <= |ns[d].dir| && e.inum in ns && Linked(ns, d)
    requires Exact(ns) && SlotFree(ns, d, k) && ns[e.inum].kind != Folder && !Has(ns[d].dir, Text(e.name))
    requires ns[e.inum].nlink == SHORT_MAX
    ensures var r := FileLinked(ns, d, k, e);
            TreeOk(r) && !Exact(r) && r[e.inum].nlink == -0x8000 && |Refs(r, e.inum)| == 0x8000
  {
    hide ShapeOk, Refs;
    assert CountIs(ns, e.inum);
    FileLink(ns, d, k, e);
    FileLinkExact(ns, d, k, e);
  }

  lemma FileUnlink(ns: Nodes, d: nat, k: nat)
    requires d in ns && 2 <= k < |ns[d].dir| && ns[d].dir[k].inum in ns
    requires TreeOk(ns) && Linked(ns, d) && ns[ns[d].dir[k].inum].kind != Folder
    ensures TreeOk(FileUnlinked(ns, d, k)) && (Exact(ns) ==> Exact(FileUnlinked(ns, d, k)) && ns[ns[d].dir[k].inum].nlink >= 1)
    ensures |Refs(FileUnlinked(ns, d, k), ns[d].dir[k].inum)| == |Refs(ns, ns[d].dir[k].inum)| - 1
  {
    hide ShapeOk, Refs;
    var i := ns[d].dir[k].inum;
    var r := FileUnlinked(ns, d, k);
    NoZero(ns);
    assert SlotSet(ns, r, d, k, NoEntry(), 0);
    FileUnlinkShape(ns, r, d, k);
    IsNamed(ns, d, k);
    TextIs(NoEntry().name, 0);
    forall j | j in r
      ensures CountIs(r, j) && |Refs(r, j)| == |Refs(ns, j)| - if j == i then 1 else 0
    {
      assert CountIs(ns, j);
      ShortSteps(|Refs(ns, j)|);
      SlotRefs(ns, r, d, k, NoEntry(), j);
      assert (d, k) in Refs(ns, j) <==> IsRef(ns, j, d, k);
      assert j != i ==> Refs(ns, j) - {(d, k)} == Refs(ns, j);
    }
    assert (d, k) in Refs(ns, i) && CountIs(ns, i);
    if Exact(ns) {
      forall j | j in r
        ensures r[j].nlink == |Refs(r, j)|
      {
        assert CountIs(ns, j);
      }
    }
  }

  lemma IsNamed(ns: Nodes, d: nat, k: nat)
    requires ShapeOk(ns) && Linked(ns, d) && 2 <= k < |ns[d].dir| && ns[d].dir[k].inum != 0
    ensures IsRef(ns, ns[d].dir[k].inum, d, k) && EntryOk(ns, d, k)
  {
    ShapeAt(ns, d);
    DotsOnly(ns, d, k);
  }

  // ---- directories gain and lose their link

  /** A directory without links, holding only its dots. */
  ghost predicate Detached(ns: Nodes, c: nat, d: nat) {
    && c in ns && ns[c].kind == Folder && ns[c].nlink == 0 && |ns[c].dir| == 2 && Unique(ns[c].dir)
    && ns[c].dir[0].inum == c && Text(ns[c].dir[0].name) == Dot()
    && ns[c].dir[1].inum == d && Text(ns[c].dir[1].name) == DotDot()
  }

  ghost function Attached(ns: Nodes, d: nat, k: nat, e: Dirent): (r: Nodes)
    requires d in ns && k <= |ns[d].dir| && e.inum in ns && e.inum != d
  {
    Relinked(Refiled(Relinked(ns, d, 1), d, k, e), e.inum, 1)
  }

  lemma AttachRefs(ns: Nodes, d: nat, k: nat, e: Dirent, i: nat)
    requires Linked(ns, d) && 2 <= k <= |ns[d].dir| && SlotFree(ns, d, k) && Detached(ns, e.inum, d) && e.inum != d
    requires ns[d].nlink < SHORT_MAX && i != 0 && 0 !in ns && Text(e.name) != Dot()
    ensures Refs(Attached(ns, d, k, e), i) == Refs(ns, i) + (if i == e.inum then {(d, k)} else {}) + (if i == d then {(e.inum, 1)} else {})
  {
    hide Refs;
    var c, r := e.inum, Attached(ns, d, k, e);
    var s := Refs(ns, i) + (if i == c then {(d, k)} else {}) + (if i == d then {(c, 1)} else {});
    assert SlotSet(ns, r, d, k, e, c);
    forall d2: nat, k2: nat
      ensures IsRef(r, i, d2, k2) <==> (d2, k2) in s
    {
      assert (d2, k2) in Refs(ns, i) <==> IsRef(ns, i, d2, k2);
      if d2 in ns && d2 != c {
        SlotLonger(ns, r, d, k, e, c, d2);
        assert SlotAt(ns, r, d, k, e, c, d2);
        if k2 < |r[d2].dir| {
          SlotDir(ns, r, d, k, e, c, d2, k2);
        }
      }
    }
    RefsAre(r, i, s);
  }

  lemma AttachShape(ns: Nodes, d: nat, k: nat, e: Dirent)
    requires TreeOk(ns) && Linked(ns, d) && 2 <= k <= |ns[d].dir| && SlotFree(ns, d, k) && Detached(ns, e.inum, d) && e.inum != ROOT
    requires ns[d].nlink < SHORT_MAX && !Has(ns[d].dir, Text(e.name)) && e.inum != d
    ensures ShapeOk(Attached(ns, d, k, e))
  {
    hide ShapeOk, DotsOk, ParentOk, EntryOk, DirOk, Refs;
    var c, r := e.inum, Attached(ns, d, k, e);
    NoZero(ns);
    RootLinked(ns);
    assert SlotSet(ns, r, d, k, e, c);
    SlotLonger(ns, r, d, k, e, c, ROOT);
    ShapeAt(ns, d);
    UniqueOf(ns, d);
    assert SlotAt(ns, r, d, k, e, c, d);
    PlacedFind(ns[d].dir, k, e, []);
    forall x | Linked(r, x)
      ensures DirOk(r, x)
    {
      if x == c {
        AttachedDir(ns, r, d, k, e);
      } else {
        SlotLonger(ns, r, d, k, e, c, x);
        ShapeAt(ns, x);
        UniqueOf(ns, x);
        SlotDots(ns, r, d, k, e, c, x);
        SlotParent(ns, r, d, k, e, c, x);
        forall j | 0 <= j < |r[x].dir|
          ensures EntryOk(r, x, j)
        {
          AttachEntry(ns, r, d, k, e, x, j);
        }
        DirFrom(r, x);
      }
    }
    SlotGone(ns, r, d, k, e, c);
    ShapeFrom(ns, r);
  }

  /** The directory that has just been linked. */
  lemma AttachedDir(ns: Nodes, r: Nodes, d: nat, k: nat, e: Dirent)
    requires ShapeOk(ns) && Linked(ns, d) && 2 <= k <= |ns[d].dir| && Detached(ns, e.inum, d) && e.inum != ROOT && e.inum != d
    requires SlotSet(ns, r, d, k, e, e.inum) && Linked(r, e.inum)
    ensures DirOk(r, e.inum)
  {
    var c := e.inum;
    NoZero(ns);
    assert SlotAt(ns, r, d, k, e, c, c) && SlotAt(ns, r, d, k, e, c, d);
    assert NamedHere(r, d, c, k);
    assert DotsOk(r, c) && ParentOk(r, c);
    forall j | 0 <= j < |r[c].dir|
      ensures EntryOk(r, c, j)
    {
    }
  }

  /** No entry named the directory before. */
  lemma AttachEntry(ns: Nodes, r: Nodes, d: nat, k: nat, e: Dirent, x: nat, j: nat)
    requires TreeOk(ns) && Linked(ns, d) && 2 <= k <= |ns[d].dir| && Detached(ns, e.inum, d) && e.inum != ROOT && e.inum != d
    requires SlotSet(ns, r, d, k, e, e.inum) && Linked(r, e.inum) && Linked(ns, x) && x != e.inum && j < |r[x].dir|
    ensures EntryOk(r, x, j)
  {
    hide ShapeOk, DotsOk, ParentOk, DirOk, Refs;
    var c := e.inum;
    ShapeAt(ns, x);
    NoZero(ns);
    SlotDir(ns, r, d, k, e, c, x, j);
    if x == d && j == k {
      assert SlotAt(ns, r, d, k, e, c, c) && SlotAt(ns, r, d, k, e, c, d);
      forall i | 2 <= i < |r[d].dir| && r[d].dir[i].inum == c
        ensures i == k
      {
        SlotDir(ns, r, d, k, e, c, d, i);
        if i != k {
          NotNamed(ns, c, d, i);
        }
      }
    } else {
      if j >= 2 {
        NotNamed(ns, c, x, j);
      }
      SlotEntry(ns, r, d, k, e, c, x, j);
    }
  }

  lemma NotNamed(ns: Nodes, c: nat, x: nat, j: nat)
    requires TreeOk(ns) && c in ns && ns[c].kind == Folder && ns[c].nlink == 0 && Linked(ns, x) && 2 <= j < |ns[x].dir|
    ensures ns[x].dir[j].inum != c
  {
    hide ShapeOk, Refs;
    NoZero(ns);
    assert CountIs(ns, c);
    assert Refs(ns, c) == {};
    assert !IsRef(ns, c, x, j);
    if ns[x].dir[j].inum == c {
      IsNamed(ns, x, j);
    }
  }

  /** create's links for a new directory. */
  lemma FolderLink(ns: Nodes, d: nat, k: nat, e: Dirent)
    requires TreeOk(ns) && Linked(ns, d) && SlotFree(ns, d, k) && Detached(ns, e.inum, d) && e.inum != ROOT
    requires ns[d].nlink < SHORT_MAX && !Has(ns[d].dir, Text(e.name)) && e.inum != d
    ensures k <= |ns[d].dir| && TreeOk(Attached(ns, d, k, e)) && (Exact(ns) ==> Exact(Attached(ns, d, k, e)))
  {
    hide ShapeOk, Refs;
    var c := e.inum;
    FreeSlot(ns, d, k, Text(e.name));
    NoZero(ns);
    AttachShape(ns, d, k, e);
    var r := Attached(ns, d, k, e);
    forall j | j in r
      ensures CountIs(r, j) && (ns[j].nlink == |Refs(ns, j)| ==> r[j].nlink == |Refs(r, j)|)
    {
      assert CountIs(ns, j);
      AttachRefs(ns, d, k, e, j);
      assert (d, k) in Refs(ns, j) <==> IsRef(ns, j, d, k);
      assert (c, 1) in Refs(ns, j) <==> IsRef(ns, j, c, 1);
      AttachCount(Refs(ns, j), Refs(r, j), j == c, j == d, (d, k), (c, 1));
    }
    if Exact(ns) {
      forall j | j in r
        ensures r[j].nlink == |Refs(r, j)|
      {
        assert CountIs(ns, j);
      }
    }
  }

  lemma AttachCount<T>(s: set<T>, t: set<T>, a: bool, b: bool, x: T, y: T)
    requires x !in s && y !in s && x != y && t == s + (if a then {x} else {}) + (if b then {y} else {})
    ensures |t| == |s| + (if a then 1 else 0) + (if b then 1 else 0)
  {
  }

  /** The tree stays in order exactly when the parent has links, and not yet as many
      as a short can count. */
  lemma FolderLinkExact(ns: Nodes, d: nat, k: nat, e: Dirent)
    requires TreeOk(ns) && d in ns && ns[d].kind == Folder && SlotFree(ns, d, k) && Detached(ns, e.inum, d) && e.inum != ROOT
    requires !Has(ns[d].dir, Text(e.name)) && e.inum != d
    ensures k <= |ns[d].dir| && (TreeOk(Attached(ns, d, k, e)) <==> Linked(ns, d) && ns[d].nlink < SHORT_MAX)
    ensures Exact(ns) ==> (Exact(Attached(ns, d, k, e)) <==> Linked(ns, d) && ns[d].nlink < SHORT_MAX)
  {
    if !Linked(ns, d) {
      FolderLinkGone(ns, d, k, e);
    } else if ns[d].nlink < SHORT_MAX {
      FolderLink(ns, d, k, e);
    } else {
      assert k <= |ns[d].dir|;
      var r := Attached(ns, d, k, e);
      assert r[d].nlink == -0x8000 && !CountIs(r, d);
    }
  }

  /** A directory made in one that has no links left: its ".." gives the parent a
      link, but no directory names that parent. */
  lemma FolderLinkGone(ns: Nodes, d: nat, k: nat, e: Dirent)
    requires TreeOk(ns) && Gone(ns, d) && SlotFree(ns, d, k) && Detached(ns, e.inum, d) && e.inum != d
    ensures k <= |ns[d].dir| && !TreeOk(Attached(ns, d, k, e))
  {
    hide ShapeOk, Refs;
    var c, r := e.inum, Attached(ns, d, k, e);
    GoneAt(ns, d);
    assert CountIs(ns, d) && Refs(ns, d) == {};
    assert Linked(r, d) && r[d].dir[1] == ns[d].dir[1];
    if ShapeOk(r) {
      ShapeAt(r, d);
      var p := ns[d].dir[1].inum;
      var j :| NamedHere(r, p, d, j);
      assert p != c && p != d;
      assert Linked(ns, p) && NamedHere(ns, p, d, j) && !IsRef(ns, d, p, j);
      IsNamed(ns, p, j);
    }
  }

  /** unlink of an empty directory. */
  ghost function Removed(ns: Nodes, d: nat, k: nat): (r: Nodes)
    requires d in ns && k < |ns[d].dir| && ns[d].dir[k].inum in ns && ns[d].dir[k].inum != d
  {
    Relinked(Refiled(Relinked(ns, d, -1), d, k, NoEntry()), ns[d].dir[k].inum, -1)
  }

  /** The parent of a directory has another link besides that directory's "..". */
  lemma ParentKeepsLink(ns: Nodes, d: nat, k: nat)
    requires TreeOk(ns) && Linked(ns, d) && 2 <= k < |ns[d].dir|
    requires ns[d].dir[k].inum in ns && ns[ns[d].dir[k].inum].kind == Folder && ns[d].dir[k].inum != d
    ensures ns[d].nlink >= 2
  {
    hide ShapeOk, Refs;
    var c := ns[d].dir[k].inum;
    NoZero(ns);
    IsNamed(ns, d, k);
    ShapeAt(ns, d);
    ShapeAt(ns, c);
    var other: (nat, nat);
    if d == ROOT {
      other := (ROOT, 1);
    } else {
      var p := ns[d].dir[1].inum;
      var j :| NamedHere(ns, p, d, j);
      IsNamed(ns, p, j);
      other := (p, j);
    }
    assert IsRef(ns, d, other.0, other.1) && IsRef(ns, d, c, 1);
    assert CountIs(ns, d);
    assert {other, (c, 1)} <= Refs(ns, d);
    FileSystem.SubsetSize({other, (c, 1)}, Refs(ns, d));
  }

  lemma RemoveRefs(ns: Nodes, d: nat, k: nat, i: nat)
    requires TreeOk(ns) && Linked(ns, d) && 2 <= k < |ns[d].dir| && i != 0
    requires ns[d].dir[k].inum in ns && ns[ns[d].dir[k].inum].kind == Folder && ns[d].dir[k].inum != d
    requires forall j :: 2 <= j < |ns[ns[d].dir[k].inum].dir| ==> ns[ns[d].dir[k].inum].dir[j].inum == 0
    ensures Refs(Removed(ns, d, k), i) == Refs(ns, i) - {(d, k)} - {(ns[d].dir[k].inum, 1)}
  {
    hide ShapeOk, Refs, DotsOk, ParentOk;
    var c, r, e := ns[d].dir[k].inum, Removed(ns, d, k), NoEntry();
    RemoveSlot(ns, d, k);
    var s := Refs(ns, i) - {(d, k)} - {(c, 1)};
    forall d2: nat, k2: nat
      ensures IsRef(r, i, d2, k2) <==> (d2, k2) in s
    {
      assert (d2, k2) in Refs(ns, i) <==> IsRef(ns, i, d2, k2);
      if d2 == c && k2 < |ns[c].dir| && k2 != 1 {
        EmptyEntry(ns, c, k2, i);
      } else if d2 in ns && d2 != c {
        SlotLonger(ns, r, d, k, e, c, d2);
        assert SlotAt(ns, r, d, k, e, c, d2);
        if k2 < |r[d2].dir| {
          SlotDir(ns, r, d, k, e, c, d2, k2);
        }
      }
    }
    RefsAre(r, i, s);
  }

  lemma EmptyEntry(ns: Nodes, c: nat, k: nat, i: nat)
    requires ShapeOk(ns) && Linked(ns, c) && k < |ns[c].dir| && k != 1 && i != 0
    requires forall j :: 2 <= j < |ns[c].dir| ==> ns[c].dir[j].inum == 0
    ensures !IsRef(ns, i, c, k)
  {
    ShapeAt(ns, c);
  }

  /** The change in terms of one slot, with c losing its last link. */
  lemma RemoveSlot(ns: Nodes, d: nat, k: nat)
    requires TreeOk(ns) && Linked(ns, d) && 2 <= k < |ns[d].dir|
    requires ns[d].dir[k].inum in ns && ns[ns[d].dir[k].inum].kind == Folder && ns[d].dir[k].inum != d
    requires forall j :: 2 <= j < |ns[ns[d].dir[k].inum].dir| ==> ns[ns[d].dir[k].inum].dir[j].inum == 0
    ensures var c := ns[d].dir[k].inum;
            && SlotSet(ns, Removed(ns, d, k), d, k, NoEntry(), c) && Removed(ns, d, k)[c].nlink == 0
            && Linked(ns, c) && ns[c].nlink == 1 && Refs(ns, c) == {(d, k)} && c != ROOT && |ns[c].dir| >= 2 && ns[c].dir[1].inum == d
            && Text(ns[c].dir[1].name) == DotDot()
  {
    hide ShapeOk, Refs;
    var c := ns[d].dir[k].inum;
    NoZero(ns);
    IsNamed(ns, d, k);
    ShapeAt(ns, c);
    assert NamedHere(ns, d, c, k);
    EmptyHasOneLink(ns, d, k, c);
    ParentKeepsLink(ns, d, k);
  }

  lemma RemoveShape(ns: Nodes, d: nat, k: nat)
    requires TreeOk(ns) && Linked(ns, d) && 2 <= k < |ns[d].dir|
    requires ns[d].dir[k].inum in ns && ns[ns[d].dir[k].inum].kind == Folder && ns[d].dir[k].inum != d
    requires forall j :: 2 <= j < |ns[ns[d].dir[k].inum].dir| ==> ns[ns[d].dir[k].inum].dir[j].inum == 0
    ensures ShapeOk(Removed(ns, d, k))
  {
    hide ShapeOk, DotsOk, ParentOk, EntryOk, DirOk, Refs;
    var c, r, e := ns[d].dir[k].inum, Removed(ns, d, k), NoEntry();
    RemoveSlot(ns, d, k);
    NoZero(ns);
    RootLinked(ns);
    SlotLonger(ns, r, d, k, e, c, ROOT);
    ShapeAt(ns, d);
    UniqueOf(ns, d);
    assert SlotAt(ns, r, d, k, e, c, d);
    ClearedFind(ns[d].dir, k, []);
    forall x | Linked(r, x)
      ensures DirOk(r, x)
    {
      SlotLonger(ns, r, d, k, e, c, x);
      ShapeAt(ns, x);
      UniqueOf(ns, x);
      ParentNotChild(ns, d, k, x);
      SlotDots(ns, r, d, k, e, c, x);
      SlotParent(ns, r, d, k, e, c, x);
      forall j | 0 <= j < |r[x].dir|
        ensures EntryOk(r, x, j)
      {
        SlotDir(ns, r, d, k, e, c, x, j);
        ZeroEntry(r, x, j);
        if r[x].dir[j].inum != 0 {
          NamesElse(ns, d, k, x, j);
          SlotEntry(ns, r, d, k, e, c, x, j);
        }
      }
      DirFrom(r, x);
    }
    RemovedGone(ns, r, d, k, c);
    SlotGone(ns, r, d, k, e, c);
    ShapeFrom(ns, r);
  }

  lemma RemovedGone(ns: Nodes, r: Nodes, d: nat, k: nat, c: nat)
    requires ShapeOk(ns) && SlotSet(ns, r, d, k, NoEntry(), c) && Linked(ns, c) && EmptyDir(ns[c].dir)
    ensures c in r && GoneOk(r, c)
  {
    ShapeAt(ns, c);
    assert SlotAt(ns, r, d, k, NoEntry(), c, c);
  }

  lemma ParentNotChild(ns: Nodes, d: nat, k: nat, x: nat)
    requires ShapeOk(ns) && Linked(ns, x) && d in ns && k < |ns[d].dir| && k != 1 && Refs(ns, ns[d].dir[k].inum) == {(d, k)}
    ensures |ns[x].dir| >= 2 && ns[x].dir[1].inum != ns[d].dir[k].inum
  {
    hide ShapeOk, Refs;
    ShapeAt(ns, x);
    assert !IsRef(ns, ns[d].dir[k].inum, x, 1);
  }

  lemma NamesElse(ns: Nodes, d: nat, k: nat, x: nat, j: nat)
    requires ShapeOk(ns) && Linked(ns, x) && d in ns && k < |ns[d].dir| && Refs(ns, ns[d].dir[k].inum) == {(d, k)}
    requires j < |ns[x].dir| && !(x == d && j == k) && ns[x].dir[j].inum != 0
    ensures j >= 2 ==> ns[x].dir[j].inum != ns[d].dir[k].inum
  {
    hide ShapeOk, Refs;
    ShapeAt(ns, x);
    assert !IsRef(ns, ns[d].dir[k].inum, x, j);
    DotsOnly(ns, x, j);
  }

  /** unlink of an empty directory keeps every count right. */
  lemma FolderUnlink(ns: Nodes, d: nat, k: nat)
    requires TreeOk(ns) && Linked(ns, d) && 2 <= k < |ns[d].dir|
    requires ns[d].dir[k].inum in ns && ns[ns[d].dir[k].inum].kind == Folder && ns[d].dir[k].inum != d
    requires forall j :: 2 <= j < |ns[ns[d].dir[k].inum].dir| ==> ns[ns[d].dir[k].inum].dir[j].inum == 0
    ensures TreeOk(Removed(ns, d, k)) && ns[ns[d].dir[k].inum].nlink == 1 && (Exact(ns) ==> Exact(Removed(ns, d, k)))
  {
    hide ShapeOk, Refs;
    var c, r := ns[d].dir[k].inum, Removed(ns, d, k);
    RemoveSlot(ns, d, k);
    RemoveShape(ns, d, k);
    NoZero(ns);
    ParentKeepsLink(ns, d, k);
    forall j | j in r
      ensures CountIs(r, j) && (ns[j].nlink == |Refs(ns, j)| ==> r[j].nlink == |Refs(r, j)|)
    {
      assert CountIs(ns, j);
      RemoveRefs(ns, d, k, j);
      assert (d, k) in Refs(ns, j) <==> IsRef(ns, j, d, k);
      assert (c, 1) in Refs(ns, j) <==> IsRef(ns, j, c, 1);
      CountDown(Refs(ns, j), (d, k), (c, 1));
    }
    if Exact(ns) {
      forall j | j in r
        ensures r[j].nlink == |Refs(r, j)|
      {
        assert CountIs(ns, j);
      }
    }
  }

  lemma CountDown<T>(s: set<T>, a: T, b: T)
    requires a != b
    ensures |s - {a} - {b}| == |s| - (if a in s then 1 else 0) - (if b in s then 1 else 0)
  {
    assert a !in s ==> s - {a} == s;
    assert b !in s ==> s - {a} - {b} == s - {a};
  }

  // ---- inodes come and go without links

  /** Only c differs, it has no links on either side, and no linked directory names
      it. */
  ghost predicate Outsider(ns: Nodes, r: Nodes, c: nat) {
    && (forall x :: x != c ==> (x in r <==> x in ns)) && (forall x :: x in ns && x != c ==> r[x] == ns[x])
    && !Linked(ns, c) && !Linked(r, c) && c != 0 && (Gone(r, c) ==> GoneOk(r, c))
    && forall x, k :: Linked(ns, x) && 0 <= k < |ns[x].dir| ==> ns[x].dir[k].inum != c
  }

  lemma OutsiderRefs(ns: Nodes, r: Nodes, c: nat, i: nat)
    requires Outsider(ns, r, c)
    ensures Refs(r, i) == Refs(ns, i) && (i == c ==> Refs(ns, i) == {})
  {
    hide Refs;
    forall d: nat, k: nat
      ensures IsRef(r, i, d, k) <==> (d, k) in Refs(ns, i)
    {
      assert (d, k) in Refs(ns, i) <==> IsRef(ns, i, d, k);
    }
    RefsAre(r, i, Refs(ns, i));
    if i == c {
      RefsAre(ns, i, {});
    }
  }

  lemma OutsiderShape(ns: Nodes, r: Nodes, c: nat)
    requires ShapeOk(ns) && Outsider(ns, r, c)
    ensures ShapeOk(r)
  {
    hide ShapeOk, DirOk;
    NoZero(ns);
    RootLinked(ns);
    forall x | Linked(r, x)
      ensures DirOk(r, x)
    {
      OutsiderDir(ns, r, c, x);
    }
    forall x {:trigger GoneOk(r, x)} | Gone(r, x)
      ensures GoneOk(r, x)
    {
      if x != c {
        GoneAt(ns, x);
      }
    }
    assert ShapeOk(r) by { ShapeIs(r); }
  }

  lemma ShapeIs(ns: Nodes)
    requires 0 !in ns && Linked(ns, ROOT)
    requires forall x {:trigger DirOk(ns, x)} :: Linked(ns, x) ==> DirOk(ns, x)
    requires forall x {:trigger GoneOk(ns, x)} :: Gone(ns, x) ==> GoneOk(ns, x)
    ensures ShapeOk(ns)
  {
  }

  lemma OutsiderDir(ns: Nodes, r: Nodes, c: nat, x: nat)
    requires ShapeOk(ns) && Outsider(ns, r, c) && Linked(r, x)
    ensures DirOk(r, x)
  {
    hide ShapeOk;
    ShapeAt(ns, x);
    assert r[x] == ns[x] && x != c;
    assert Linked(r, ns[x].dir[1].inum);
    assert DotsOk(r, x);
    if x != ROOT {
      var k :| NamedHere(ns, ns[x].dir[1].inum, x, k);
      assert NamedHere(r, ns[x].dir[1].inum, x, k);
    }
    forall k | 0 <= k < |r[x].dir|
      ensures EntryOk(r, x, k)
    {
      assert EntryOk(ns, x, k);
    }
  }

  /** ialloc: a new inode, not yet linked. */
  lemma AllocNode(ns: Nodes, c: nat, node: Node)
    requires TreeOk(ns) && c !in ns && c != 0 && node.nlink == 0
    requires node.kind == Folder ==> GoneOk(ns[c := node], c)
    ensures TreeOk(ns[c := node]) && (Exact(ns) <==> Exact(ns[c := node]))
    ensures Refs(ns[c := node], c) == {} && forall i :: i in ns ==> Refs(ns[c := node], i) == Refs(ns, i)
  {
    hide ShapeOk, Refs;
    var r := ns[c := node];
    forall x, k | Linked(ns, x) && 0 <= k < |ns[x].dir|
      ensures ns[x].dir[k].inum != c
    {
      ShapeAt(ns, x);
      assert EntryOk(ns, x, k);
    }
    OutsiderShape(ns, r, c);
    OutsiderRefs(ns, r, c, c);
    forall i | i in r
      ensures CountIs(r, i) && Refs(r, i) == Refs(ns, i)
    {
      OutsiderRefs(ns, r, c, i);
      assert i != c ==> CountIs(ns, i);
    }
    AllocExact(ns, r, c);
  }

  lemma AllocExact(ns: Nodes, r: Nodes, c: nat)
    requires TreeOk(ns) && TreeOk(r) && c !in ns && c in r && r == ns[c := r[c]] && r[c].nlink == 0 && Refs(r, c) == {}
    requires forall i :: i in ns ==> Refs(r, i) == Refs(ns, i)
    ensures Exact(ns) <==> Exact(r)
  {
    hide ShapeOk, Refs;
    if Exact(ns) {
      forall i | i in r
        ensures r[i].nlink == |Refs(r, i)|
      {
        assert i != c ==> CountIs(ns, i);
      }
    }
    if Exact(r) {
      forall i | i in ns
        ensures ns[i].nlink == |Refs(ns, i)|
      {
        assert CountIs(r, i);
      }
    }
  }

  /** iput frees an inode whose nlink is 0: the tree stays in order exactly when no
      entry names it, which for a file means that it has not 65536 of them. */
  lemma FreeNode(ns: Nodes, c: nat)
    requires TreeOk(ns) && c in ns && ns[c].nlink == 0
    ensures TreeOk(ns - {c}) <==> Refs(ns, c) == {}
    ensures |Refs(ns, c)| % 0x1_0000 == 0 && (Exact(ns) ==> Exact(ns - {c}) && Refs(ns, c) == {})
  {
    hide ShapeOk, Refs;
    var r := ns - {c};
    NoZero(ns);
    assert CountIs(ns, c);
    if Refs(ns, c) == {} {
      FreeUnnamed(ns, c);
    } else {
      var x :| x in Refs(ns, c);
      StillNamed(ns, c, x.0, x.1);
    }
  }

  lemma StillNamed(ns: Nodes, c: nat, d: nat, k: nat)
    requires TreeOk(ns) && c in ns && c != 0 && ns[c].nlink == 0 && IsRef(ns, c, d, k)
    ensures !TreeOk(ns - {c})
  {
    hide ShapeOk, CountsOk;
    var r := ns - {c};
    assert Linked(r, d) && !EntryOk(r, d, k);
    if ShapeOk(r) {
      ShapeAt(r, d);
    }
  }

  lemma FreeUnnamed(ns: Nodes, c: nat)
    requires TreeOk(ns) && c in ns && ns[c].nlink == 0 && Refs(ns, c) == {}
    ensures TreeOk(ns - {c}) && (Exact(ns) ==> Exact(ns - {c}))
  {
    hide ShapeOk, Refs;
    var r := ns - {c};
    NoZero(ns);
    forall x, k | Linked(ns, x) && 0 <= k < |ns[x].dir|
      ensures ns[x].dir[k].inum != c
    {
      ShapeAt(ns, x);
      assert !IsRef(ns, c, x, k);
      if ns[x].dir[k].inum != 0 {
        DotsOnly(ns, x, k);
      }
    }
    OutsiderShape(ns, r, c);
    forall i | i in r
      ensures CountIs(r, i) && Refs(r, i) == Refs(ns, i)
    {
      OutsiderRefs(ns, r, c, i);
      assert i != c ==> CountIs(ns, i);
    }
    if Exact(ns) {
      forall i | i in r
        ensures r[i].nlink == |Refs(r, i)|
      {
        assert CountIs(ns, i);
      }
    }
  }

  // ---- the system calls

  /** Names that the code writes as string constants. */
  function DotName(): (n: Name)
    ensures Text(n) == Dot()
  {
    var n := [46] + seq(DIRSIZ - 1, _ => 0);
    TextIs(n, 1);
    assert n[..1] == [46];
    n
  }

  function DotDotName(): (n: Name)
    ensures Text(n) == DotDot()
  {
    var n := [46, 46] + seq(DIRSIZ - 2, _ => 0);
    TextIs(n, 2);
    assert n[..2] == [46, 46];
    n
  }

  /** The inodes of one file system, between system calls that run one after the
      other. Path lookup has been done: operations get the directory and the last
      path element. The directory may have lost its links while the process was
      in it. */
  class Tree {
    var nodes: Nodes

    constructor ()
      ensures Exact(nodes) && nodes.Keys == {ROOT} && nodes[ROOT].kind == Folder && nodes[ROOT].nlink == 1
      ensures forall t :: Has(nodes[ROOT].dir, t) ==> t == Dot() || t == DotDot()
    {
      EmptyTree(DotName(), DotDotName());
      nodes := map[ROOT := Node(Folder, 1, [Dirent(ROOT, DotName()), Dirent(ROOT, DotDotName())])];
    }

    /** sys_link from the point where the old path is resolved to i. parent is the
        directory of the new name, or 0 if its path does not resolve. */
    method Link(i: nat, parent: nat, name: Name) returns (r: int)
      requires TreeOk(nodes) && i in nodes && (parent != 0 ==> parent in nodes && nodes[parent].kind == Folder)
      modifies this
      ensures TreeOk(nodes) <==> r != 0 || Linked(old(nodes), parent)
      ensures Exact(old(nodes)) ==> (Exact(nodes) <==> r != 0 || (Linked(old(nodes), parent) && old(nodes)[i].nlink < SHORT_MAX))
      ensures r == 0 && Linked(old(nodes), parent) ==> |Refs(nodes, i)| == |Refs(old(nodes), i)| + 1
      ensures r == 0 <==> old(nodes)[i].kind != Folder && parent != 0 && !Has(old(nodes)[parent].dir, Text(name))
      ensures r != 0 ==> r == -1 && nodes == old(nodes)
      ensures r == 0 ==> nodes.Keys == old(nodes).Keys && nodes[i] == old(nodes)[i].(nlink := Short(old(nodes)[i].nlink + 1))
      ensures r == 0 ==> forall t :: Find(nodes[parent].dir, t) == if t == Text(name) then i else Find(old(nodes)[parent].dir, t)
      ensures r == 0 ==> forall x :: x in nodes && x != i && x != parent ==> nodes[x] == old(nodes)[x]
      ensures r == 0 ==> nodes[parent] == old(nodes)[parent].(dir := nodes[parent].dir)
    {
      hide TreeOk, Exact, Has, Find, Unique, Refs;
      ghost var ns := nodes;
      if nodes[i].kind == Folder {
        return -1;
      }
      ShortSteps(nodes[i].nlink);
      nodes := nodes[i := nodes[i].(nlink := Short(nodes[i].nlink + 1))];
      if parent == 0 {
        nodes := nodes[i := nodes[i].(nlink := Short(nodes[i].nlink - 1))];
        assert nodes == ns;
        return -1;
      }
      var ok, dir, k, s := Dirlink(nodes[parent].dir, name, InumOf(ns, i));
      if !ok {
        nodes := nodes[i := nodes[i].(nlink := Short(nodes[i].nlink - 1))];
        assert nodes == ns;
        return -1;
      }
      nodes := nodes[parent := nodes[parent].(dir := dir)];
      FileLinkExact(ns, parent, k, Dirent(i, s));
      if Linked(ns, parent) {
        FileLink(ns, parent, k, Dirent(i, s));
      }
      assert nodes == FileLinked(ns, parent, k, Dirent(i, s));
      EntryAdded(ns, parent, k, Dirent(i, s));
      r := 0;
    }

    /** isdirempty: no entry after the dots. */
    method IsDirEmpty(c: nat) returns (yes: bool)
      requires c in nodes
      ensures yes <==> forall j :: 2 <= j < |nodes[c].dir| ==> nodes[c].dir[j].inum == 0
    {
      var k := 2;
      while k < |nodes[c].dir|
        invariant 2 <= k && forall j :: 2 <= j < k && j < |nodes[c].dir| ==> nodes[c].dir[j].inum == 0
      {
        if nodes[c].dir[k].inum != 0 {
          return false;
        }
        k := k + 1;
      }
      yes := true;
    }

    /** sys_unlink in directory d. It panics when it finds a file whose count has
        wrapped around below one. */
    method Unlink(d: nat, name: Name) returns (r: int, c: nat, panicked: bool)
      requires TreeOk(nodes) && d in nodes && nodes[d].kind == Folder
      modifies this
      ensures TreeOk(nodes) && (Exact(old(nodes)) ==> Exact(nodes) && !panicked)
      ensures r != 0 ==> r == -1 && nodes == old(nodes)
      ensures panicked <==>
                && Text(name) != Dot() && Text(name) != DotDot() && Has(old(nodes)[d].dir, Text(name))
                && var i := Find(old(nodes)[d].dir, Text(name)); i in old(nodes) && old(nodes)[i].nlink < 1
      ensures r == 0 <==>
                && !panicked && Text(name) != Dot() && Text(name) != DotDot() && Has(old(nodes)[d].dir, Text(name))
                && var i := Find(old(nodes)[d].dir, Text(name));
                   i in old(nodes) && (old(nodes)[i].kind == Folder ==> EmptyDir(old(nodes)[i].dir))
      ensures r == 0 ==> c == Find(old(nodes)[d].dir, Text(name)) && c in nodes && nodes[c].nlink == old(nodes)[c].nlink - 1
      ensures r == 0 ==> nodes.Keys == old(nodes).Keys && forall x :: x in nodes && x != c && x != d ==> nodes[x] == old(nodes)[x]
      ensures r == 0 ==> forall t :: Find(nodes[d].dir, t) == if t == Text(name) then 0 else Find(old(nodes)[d].dir, t)
      ensures r == 0 ==> nodes[d].nlink == old(nodes)[d].nlink - if old(nodes)[c].kind == Folder then 1 else 0
    {
      hide TreeOk, Exact, Has, Find, Unique, EmptyDir;
      ghost var ns := nodes;
      c, panicked := 0, false;
      var a := Namecmp(name, DotName());
      var b := Namecmp(name, DotDotName());
      if a == 0 || b == 0 {
        return -1, c, false;
      }
      var k := Dirlookup(nodes[d].dir, name);
      if k == |nodes[d].dir| {
        return -1, c, false;
      }
      FoundEntry(ns, d, k, Text(name));
      c := nodes[d].dir[k].inum;
      NamedFile(ns, d, k);
      if nodes[c].nlink < 1 {
        return -1, c, true;
      }
      if nodes[c].kind == Folder {
        var empty := IsDirEmpty(c);
        EmptyDirIs(nodes[c].dir);
        if !empty {
          return -1, c, false;
        }
      }
      Clear(d, k);
      EntryCleared(ns, d, k);
      r := 0;
    }

    /** The rest of unlink: the entry goes, and the links it gave. */
    method Clear(d: nat, k: nat)
      requires TreeOk(nodes) && Linked(nodes, d) && 2 <= k < |nodes[d].dir|
      requires var c := nodes[d].dir[k].inum;
               c in nodes && nodes[c].nlink >= 1 && (nodes[c].kind == Folder ==> c != d && EmptyDir(nodes[c].dir))
      modifies this
      ensures TreeOk(nodes) && (Exact(old(nodes)) ==> Exact(nodes)) && nodes.Keys == old(nodes).Keys
      ensures var c := old(nodes)[d].dir[k].inum;
              && nodes[c].nlink == old(nodes)[c].nlink - 1 && nodes[d].dir == old(nodes)[d].dir[k := NoEntry()]
              && nodes[d].nlink == old(nodes)[d].nlink - (if old(nodes)[c].kind == Folder then 1 else 0)
              && forall x :: x in nodes && x != c && x != d ==> nodes[x] == old(nodes)[x]
    {
      hide TreeOk, Exact, Unique, Refs;
      ghost var ns := nodes;
      var c := nodes[d].dir[k].inum;
      if nodes[c].kind == Folder {
        FolderUnlink(ns, d, k);
        nodes := nodes[d := nodes[d].(dir := nodes[d].dir[k := NoEntry()], nlink := nodes[d].nlink - 1)];
      } else {
        FileUnlink(ns, d, k);
        nodes := nodes[d := nodes[d].(dir := nodes[d].dir[k := NoEntry()])];
      }
      nodes := nodes[c := nodes[c].(nlink := nodes[c].nlink - 1)];
      assert nodes == if ns[c].kind == Folder then Removed(ns, d, k) else FileUnlinked(ns, d, k);
    }

    /** ialloc: the first inode number without an inode. */
    method Ialloc(ninodes: nat) returns (c: nat)
      requires exists x :: 1 <= x < ninodes && x !in nodes
      ensures 1 <= c < ninodes && c !in nodes && forall x :: 1 <= x < c ==> x in nodes
    {
      c := 1;
      while c < ninodes && c in nodes
        invariant 1 <= c <= ninodes && forall x :: 1 <= x < c ==> x in nodes
      {
        c := c + 1;
      }
    }

    /** create in directory d: the file of that name if a plain file is wanted and
        there is one, nothing for any other name that is there, and a new inode
        otherwise. A process in a removed directory can create in it, and then the
        tree is no longer in order; nor is it when a directory gets more
        subdirectories than a short can count. */
    method Create(d: nat, name: Name, kind: Kind, ninodes: nat) returns (c: nat, made: bool)
      requires TreeOk(nodes) && d in nodes && nodes[d].kind == Folder && exists x :: 1 <= x < ninodes && x !in nodes
      requires Linked(nodes, d) || Text(name) != DotDot()      // its ".." may be a free inode, on which ilock panics
      modifies this
      ensures TreeOk(nodes) <==> !made || (Linked(old(nodes), d) && (kind == Folder ==> old(nodes)[d].nlink < SHORT_MAX))
      ensures Exact(old(nodes)) ==> (Exact(nodes) <==> TreeOk(nodes))
      ensures made && kind != Folder && Linked(old(nodes), d) ==> |Refs(nodes, c)| == 1
      ensures made <==> !Has(old(nodes)[d].dir, Text(name))
      ensures !made ==>
                && var i := Find(old(nodes)[d].dir, Text(name));
                && nodes == old(nodes) && i in nodes && c == if kind == Regular && nodes[i].kind == Regular then i else 0
      ensures made ==>
                && nodes.Keys == old(nodes).Keys + {c} && c !in old(nodes) && nodes[c].kind == kind && nodes[c].nlink == 1
                && 1 <= c < ninodes && (forall x :: 1 <= x < c ==> x in old(nodes)) && (kind != Folder ==> nodes[c].dir == [])
                && forall t :: Find(nodes[d].dir, t) == if t == Text(name) then c else Find(old(nodes)[d].dir, t)
      ensures made ==> nodes[d] == old(nodes)[d].(dir := nodes[d].dir, nlink := Short(old(nodes)[d].nlink + if kind == Folder then 1 else 0))
      ensures made ==> forall x :: x in old(nodes) && x != d ==> x in nodes && nodes[x] == old(nodes)[x]
    {
      hide TreeOk, Exact, Has, Find, Unique, Refs;
      ghost var ns := nodes;
      var k := Dirlookup(nodes[d].dir, name);
      if k < |nodes[d].dir| {
        ExactIs(ns);
        c := nodes[d].dir[k].inum;
        FoundAny(ns, d, k, Text(name));
        c := if kind == Regular && nodes[c].kind == Regular then c else 0;
        return c, false;
      }
      c := Make(d, name, kind, ninodes);
      made := true;
    }

    /** The rest of create, for a name that is not there. */
    method Make(d: nat, name: Name, kind: Kind, ninodes: nat) returns (c: nat)
      requires TreeOk(nodes) && d in nodes && nodes[d].kind == Folder && exists x :: 1 <= x < ninodes && x !in nodes
      requires !Has(nodes[d].dir, Text(name))
      modifies this
      ensures TreeOk(nodes) <==> Linked(old(nodes), d) && (kind == Folder ==> old(nodes)[d].nlink < SHORT_MAX)
      ensures Exact(old(nodes)) ==> (Exact(nodes) <==> TreeOk(nodes))
      ensures kind != Folder && Linked(old(nodes), d) ==> |Refs(nodes, c)| == 1
      ensures nodes.Keys == old(nodes).Keys + {c} && c !in old(nodes) && nodes[c].kind == kind && nodes[c].nlink == 1
      ensures 1 <= c < ninodes && (forall x :: 1 <= x < c ==> x in old(nodes)) && (kind != Folder ==> nodes[c].dir == [])
      ensures forall t :: Find(nodes[d].dir, t) == if t == Text(name) then c else Find(old(nodes)[d].dir, t)
      ensures nodes[d] == old(nodes)[d].(dir := nodes[d].dir, nlink := Short(old(nodes)[d].nlink + if kind == Folder then 1 else 0))
      ensures forall x :: x in old(nodes) && x != d ==> x in nodes && nodes[x] == old(nodes)[x]
    {
      hide TreeOk, Exact, Has, Find, Unique, EmptyDir, Linked, Refs;
      ghost var ns := nodes;
      c := Ialloc(ninodes);
      NewInode(ns, d, c, kind);
      var dotdir := [];
      if kind == Folder {
        dotdir := Dots(c, d);
        nodes := nodes[d := nodes[d].(nlink := Short(nodes[d].nlink + 1))];
      }
      var _, dir, k, s := Dirlink(nodes[d].dir, name, c);
      nodes := nodes[d := nodes[d].(dir := dir)][c := Node(kind, 1, dotdir)];
      EntryAdded(ns, d, k, Dirent(c, s));
      Made(ns, nodes, d, k, Dirent(c, s), Node(kind, 0, dotdir));
    }

    /** The dot entries that create puts into a new directory. */
    method Dots(c: nat, d: nat) returns (dir: Directory)
      requires c != 0 && d != 0 && c != d
      ensures |dir| == 2 && Unique(dir) && dir[0].inum == c && Text(dir[0].name) == Dot()
      ensures dir[1].inum == d && Text(dir[1].name) == DotDot()
    {
      var ok, k, s;
      ok, dir, k, s := Dirlink([], DotName(), c);
      NotThere(dir, DotDot());
      ok, dir, k, s := Dirlink(dir, DotDotName(), d);
    }

    /** The end of iput for the last reference to an inode whose nlink is 0. */
    method Iput(c: nat)
      requires TreeOk(nodes) && c in nodes && nodes[c].nlink == 0
      modifies this
      ensures nodes == old(nodes) - {c}
      ensures TreeOk(nodes) <==> Refs(old(nodes), c) == {}
      ensures Exact(old(nodes)) ==> Exact(nodes)
    {
      FreeNode(nodes, c);
      nodes := nodes - {c};
    }
  }

  lemma ExactIs(ns: Nodes)
    ensures Exact(ns) ==> TreeOk(ns)
  {
  }

  /** A named directory has links, and in an exact tree so has a named file. */
  lemma NamedFile(ns: Nodes, d: nat, k: nat)
    requires TreeOk(ns) && Linked(ns, d) && 2 <= k < |ns[d].dir| && ns[d].dir[k].inum in ns && ns[d].dir[k].inum != 0
    ensures var c := ns[d].dir[k].inum; ns[c].kind == Folder || Exact(ns) ==> ns[c].nlink >= 1
  {
    hide ShapeOk, Refs;
    IsNamed(ns, d, k);
    var c := ns[d].dir[k].inum;
    assert CountIs(ns, c) && (d, k) in Refs(ns, c);
  }

  lemma EmptyDirIs(dir: Directory)
    ensures EmptyDir(dir) <==> forall j :: 2 <= j < |dir| ==> dir[j].inum == 0
  {
  }

  function InumOf(ghost ns: Nodes, i: nat): (r: nat)
    requires TreeOk(ns) && i in ns
    ensures r == i != 0
  {
    i
  }

  lemma EntryAdded(ns: Nodes, d: nat, k: nat, e: Dirent)
    requires TreeOk(ns) && d in ns && ns[d].kind == Folder && k <= |ns[d].dir| && (k < |ns[d].dir| ==> ns[d].dir[k].inum == 0)
    requires e.inum != 0 && !Has(ns[d].dir, Text(e.name))
    ensures forall t :: Find(Placed(ns[d].dir, k, e), t) == if t == Text(e.name) then e.inum else Find(ns[d].dir, t)
  {
    UniqueIn(ns, d);
    forall t
      ensures Find(Placed(ns[d].dir, k, e), t) == if t == Text(e.name) then e.inum else Find(ns[d].dir, t)
    {
      PlacedFind(ns[d].dir, k, e, t);
    }
  }

  lemma EntryCleared(ns: Nodes, d: nat, k: nat)
    requires TreeOk(ns) && Linked(ns, d) && k < |ns[d].dir| && ns[d].dir[k].inum != 0
    ensures forall t :: Find(ns[d].dir[k := NoEntry()], t) == if t == Text(ns[d].dir[k].name) then 0 else Find(ns[d].dir, t)
  {
    ShapeAt(ns, d);
    forall t
      ensures Find(ns[d].dir[k := NoEntry()], t) == if t == Text(ns[d].dir[k].name) then 0 else Find(ns[d].dir, t)
    {
      ClearedFind(ns[d].dir, k, t);
    }
  }

  lemma FoundEntry(ns: Nodes, d: nat, k: nat, text: seq<byte>)
    requires TreeOk(ns) && d in ns && ns[d].kind == Folder
    requires k < |ns[d].dir| && NamedAt(ns[d].dir, k, text) && text != Dot() && text != DotDot()
    ensures Linked(ns, d) && k >= 2 && ns[d].dir[k].inum in ns && Find(ns[d].dir, text) == ns[d].dir[k].inum && ns[d].dir[k].inum != 0
    ensures ns[ns[d].dir[k].inum].kind == Folder ==> ns[d].dir[k].inum != d
  {
    hide CountsOk;
    if Gone(ns, d) {
      GoneAt(ns, d);
    }
    ShapeAt(ns, d);
    NoZero(ns);
    DotsOnly(ns, d, k);
    assert EntryOk(ns, d, k);
    FindIs(ns[d].dir, text, k);
  }

  lemma FoundAny(ns: Nodes, d: nat, k: nat, text: seq<byte>)
    requires TreeOk(ns) && d in ns && ns[d].kind == Folder && (Linked(ns, d) || text != DotDot())
    requires k < |ns[d].dir| && NamedAt(ns[d].dir, k, text)
    ensures ns[d].dir[k].inum in ns && Find(ns[d].dir, text) == ns[d].dir[k].inum && Has(ns[d].dir, text)
  {
    UniqueIn(ns, d);
    FindIs(ns[d].dir, text, k);
    if Linked(ns, d) {
      ShapeAt(ns, d);
      assert EntryOk(ns, d, k);
    } else {
      GoneAt(ns, d);
    }
  }

  lemma NewInode(ns: Nodes, d: nat, c: nat, kind: Kind)
    requires TreeOk(ns) && d in ns && c !in ns
    ensures d != 0 && c != d && c != ROOT
  {
    NoZero(ns);
    RootLinked(ns);
  }

  /** A new inode, and its entry in directory d. */
  lemma Made(ns: Nodes, r: Nodes, d: nat, k: nat, e: Dirent, node: Node)
    requires TreeOk(ns) && d in ns && ns[d].kind == Folder && SlotFree(ns, d, k) && !Has(ns[d].dir, Text(e.name))
    requires e.inum !in ns && e.inum != 0 && e.inum != d && e.inum != ROOT && node.nlink == 0
    requires node.kind == Folder ==> Detached(ns[e.inum := node], e.inum, d)
    requires d != 0 && k <= |ns[d].dir|
    requires r == ns[d := ns[d].(nlink := Short(ns[d].nlink + if node.kind == Folder then 1 else 0), dir := Placed(ns[d].dir, k, e))]
                    [e.inum := node.(nlink := 1)]
    ensures TreeOk(r) <==> Linked(ns, d) && (node.kind == Folder ==> ns[d].nlink < SHORT_MAX)
    ensures Exact(ns) ==> (Exact(r) <==> TreeOk(r))
    ensures node.kind != Folder && Linked(ns, d) ==> |Refs(r, e.inum)| == 1
  {
    hide TreeOk, Exact, Has, Unique, Refs;
    ExactIs(r);
    var ns1 := ns[e.inum := node];
    AllocNode(ns, e.inum, node);
    assert Linked(ns1, d) <==> Linked(ns, d);
    if node.kind == Folder {
      FolderLinkExact(ns1, d, k, e);
      assert r == Attached(ns1, d, k, e);
    } else {
      FileLinkExact(ns1, d, k, e);
      if Linked(ns, d) {
        FileLink(ns1, d, k, e);
      }
      assert r == FileLinked(ns1, d, k, e);
    }
  }

  lemma NotThere(dir: Directory, text: seq<byte>)
    requires |dir| == 1 && Text(dir[0].name) != text
    ensures !Has(dir, text)
  {
  }

  // ---- more links than a short can count

  const MANY := 0x1_0000

  /** The k-th of many names. */
  function NumberName(k: nat): (n: Name)
    requires k <= MANY
    ensures |Text(n)| == 3
  {
    var n: seq<byte> := [(1 + k % 255) as byte, (1 + (k / 255) % 255) as byte, (1 + k / 65025) as byte] + seq(DIRSIZ - 3, _ => 0);
    TextIs(n, 3);
    n
  }

  lemma NamesDiffer(j: nat, k: nat)
    requires j <= MANY && k <= MANY && Text(NumberName(j)) == Text(NumberName(k))
    ensures j == k
  {
    var a, b := NumberName(j), NumberName(k);
    TextEnd(a);
    TextEnd(b);
    assert a[0] == b[0] && a[1] == b[1] && a[2] == b[2];
    Digits(j);
    Digits(k);
  }

  lemma Digits(k: nat)
    ensures k == k % 255 + 255 * ((k / 255) % 255) + 65025 * (k / 65025)
  {
    var q := k / 255;
    assert k == 255 * q + k % 255 && q == 255 * (q / 255) + q % 255;
    assert k / 65025 == q / 255;
  }

  /** From here on none of the names is in use. */
  ghost predicate NamesFree(dir: Directory, k: nat) {
    forall j: nat :: k <= j <= MANY ==> Find(dir, Text(NumberName(j))) == 0
  }

  lemma NamesLeft(was: Directory, dir: Directory, k: nat, i: nat)
    requires k <= MANY && NamesFree(was, k)
    requires forall t :: Find(dir, t) == if t == Text(NumberName(k)) then i else Find(was, t)
    ensures NamesFree(dir, k + 1)
  {
    forall j: nat | k + 1 <= j <= MANY
      ensures Find(dir, Text(NumberName(j))) == 0
    {
      if Text(NumberName(j)) == Text(NumberName(k)) {
        NamesDiffer(j, k);
      }
    }
  }

  /** A new file with n links in the root: its nlink is n modulo 2^16. */
  method LinkTimes(n: nat) returns (t: Tree, i: nat)
    requires 1 <= n <= MANY
    ensures fresh(t) && TreeOk(t.nodes) && i in t.nodes && t.nodes[i].kind == Regular
    ensures |Refs(t.nodes, i)| == n && t.nodes[i].nlink == Short(n)
    ensures ROOT in t.nodes && t.nodes[ROOT].kind == Folder && Find(t.nodes[ROOT].dir, Text(NumberName(0))) == i
  {
    hide TreeOk, Has, Find, Refs, NumberName;
    t := new Tree();
    ExactIs(t.nodes);
    RootFree(t.nodes[ROOT].dir);
    ghost var before := t.nodes[ROOT].dir;
    assert 2 !in t.nodes;
    var made;
    i, made := t.Create(ROOT, NumberName(0), Regular, 3);
    NamesLeft(before, t.nodes[ROOT].dir, 0, i);
    var k := 1;
    while k < n
      invariant 1 <= k <= n && TreeOk(t.nodes) && i in t.nodes && t.nodes[i].kind == Regular && i != 0 && i != ROOT
      invariant ROOT in t.nodes && t.nodes[ROOT].kind == Folder && t.nodes[ROOT].nlink == 1
      invariant |Refs(t.nodes, i)| == k && NamesFree(t.nodes[ROOT].dir, k)
      invariant Find(t.nodes[ROOT].dir, Text(NumberName(0))) == i
    {
      before := t.nodes[ROOT].dir;
      var r := t.Link(i, ROOT, NumberName(k));
      NamesLeft(before, t.nodes[ROOT].dir, k, i);
      FirstStays(k);
      k := k + 1;
    }
    CountOf(t.nodes, i);
  }

  lemma RootFree(dir: Directory)
    requires forall t :: Has(dir, t) ==> t == Dot() || t == DotDot()
    ensures NamesFree(dir, 0)
  {
  }

  lemma FirstStays(k: nat)
    requires 0 < k <= MANY
    ensures Text(NumberName(k)) != Text(NumberName(0))
  {
    if Text(NumberName(k)) == Text(NumberName(0)) {
      NamesDiffer(k, 0);
    }
  }

  lemma CountOf(ns: Nodes, i: nat)
    requires TreeOk(ns) && i in ns && ns[i].kind != Folder
    ensures ns[i].nlink == Short(|Refs(ns, i)|)
  {
    assert CountIs(ns, i);
  }

  /** After the 32768th link the next unlink panics. */
  method UnlinkPanics() returns (panicked: bool)
    ensures panicked
  {
    hide TreeOk, Has, Find, Refs, NumberName;
    var t, i := LinkTimes(0x8000);
    InTree(t.nodes, i);
    NotDots(NumberName(0));
    var _, _, stop := t.Unlink(ROOT, NumberName(0));
    panicked := stop;
  }

  lemma NotDots(n: Name)
    requires |Text(n)| == 3
    ensures Text(n) != Dot() && Text(n) != DotDot()
  {
  }

  /** After the 65536th link the file has no links any more, and the last iput frees
      it, although the root still names it. */
  method NamedInodeFreed() returns (t: Tree, i: nat)
    ensures i !in t.nodes && !TreeOk(t.nodes)
    ensures ROOT in t.nodes && Find(t.nodes[ROOT].dir, Text(NumberName(0))) == i != 0
  {
    hide TreeOk, Has, Find, Refs, NumberName;
    t, i := LinkTimes(MANY);
    assert i != 0 && i != ROOT by { InTree(t.nodes, i); }
    t.Iput(i);
  }

  lemma InTree(ns: Nodes, i: nat)
    requires TreeOk(ns) && i in ns && ns[i].kind != Folder
    ensures i != 0 && i != ROOT
  {
    NoZero(ns);
    RootLinked(ns);
  }
}
