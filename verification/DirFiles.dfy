/** Directories as files: dirlookup and dirlink on the bytes that readi and
    writei move, and the directory of records that those bytes stand for. */
module DirFiles {
  import opened Blocks
  import opened FsModel
  import opened FileSystem
  import opened OpenFiles
  import opened Dirents

  /** Whole entries, and no holes. */
  ghost predicate IsDir(f: Fs, n: nat) {
    && InodesOk(f.inodes) && n in f.inodes && f.inodes[n].size <= MAXBYTES && f.inodes[n].size % DIRENT == 0
    && Empty(f, n, Touched(0, f.inodes[n].size)) == {}
  }

  ghost function DirOf(f: Fs, n: nat): (d: Directory)
    requires IsDir(f, n)
    ensures |d| * DIRENT == f.inodes[n].size
  {
    ReadDir(Contents(f, n))
  }

  /** The blocks under an entry are there. */
  lemma EntryMapped(f: Fs, n: nat, k: nat)
    requires IsDir(f, n) && k * DIRENT < f.inodes[n].size
    ensures k * DIRENT + DIRENT <= f.inodes[n].size && Empty(f, n, Touched(k * DIRENT, DIRENT)) == {}
  {
    hide Touched;
    TouchedLess(k * DIRENT, DIRENT, 0, f.inodes[n].size);
    assert Empty(f, n, Touched(k * DIRENT, DIRENT)) <= Empty(f, n, Touched(0, f.inodes[n].size));
  }

  /** readi of one entry. */
  method ReadEntry(v: Volume, n: nat, k: nat) returns (e: Dirent)
    requires Owned(v.sb, v.Now()) && IsDir(v.Now(), n) && k * DIRENT < v.inodes[n].size
    modifies v`disk, v`inodes, v`owner, v`logged
    ensures v.Now() == old(v.Now()) && v.logged == old(v.logged)
    ensures k < |DirOf(v.Now(), n)| && e == DirOf(v.Now(), n)[k]
  {
    hide Owned, Empty, FreeBlocks, Slice, Contents, Extended, LoggedOnly, Touched, Stuck;
    ghost var f := v.Now();
    OwnedFacts(v.sb, f);
    EntryMapped(f, n, k);
    EmptyNoStuck(v.sb, f, n, Touched(k * DIRENT, DIRENT), v.outstanding);
    var r, data, _ := v.Readi(n, k * DIRENT, DIRENT);
    ContentsSlice(f, n, k * DIRENT, DIRENT);
    e := Decode(data);
  }

  /** dirlookup: the first entry in use whose text is that of the name. */
  method Lookup(v: Volume, n: nat, name: Name) returns (found: bool, k: nat)
    requires Owned(v.sb, v.Now()) && IsDir(v.Now(), n)
    modifies v`disk, v`inodes, v`owner, v`logged
    ensures v.Now() == old(v.Now()) && v.logged == old(v.logged)
    ensures found <==> Has(DirOf(v.Now(), n), Text(name))
    ensures found ==> k < |DirOf(v.Now(), n)| && NamedAt(DirOf(v.Now(), n), k, Text(name))
    ensures found ==> forall j :: 0 <= j < k ==> !NamedAt(DirOf(v.Now(), n), j, Text(name))
  {
    hide Owned, Empty, Contents, ReadDir, Text;
    ghost var d := DirOf(v.Now(), n);
    k := 0;
    while k * DIRENT < v.inodes[n].size
      invariant v.Now() == old(v.Now()) && v.logged == old(v.logged) && k <= |d|
      invariant forall j :: 0 <= j < k ==> !NamedAt(d, j, Text(name))
      decreases |d| - k
    {
      var e := ReadEntry(v, n, k);
      if e.inum != 0 {
        var c := Namecmp(name, e.name);
        if c == 0 {
          assert NamedAt(d, k, Text(name));
          return true, k;
        }
      }
      k := k + 1;
    }
    found := false;
  }

  /** dirlink: refuses a name that is there; otherwise the first entry out of use,
      or the end of the file, takes the new one. No other file changes. */
  method Link(v: Volume, n: nat, name: Name, inum: nat) returns (ok: bool, k: nat, s: Name)
    requires Owned(v.sb, v.Now()) && TailZero(v.Now()) && IsDir(v.Now(), n) && v.outstanding >= 1
    requires 0 < inum < 0x1_0000 && v.inodes[n].size + DIRENT <= MAXBYTES
    requires |Empty(v.Now(), n, Touched(v.inodes[n].size, DIRENT))| <= |FreeBlocks(v.sb, v.disk)|
    modifies v`disk, v`inodes, v`dinodes, v`owner, v`logged
    ensures ok <==> !Has(old(DirOf(v.Now(), n)), Text(name))
    ensures !ok ==> v.Now() == old(v.Now()) && v.logged == old(v.logged) && v.dinodes == old(v.dinodes)
    ensures ok ==>
              && var d := old(DirOf(v.Now(), n));
              && k <= |d| && (k < |d| ==> d[k].inum == 0) && (forall j :: 0 <= j < k ==> d[j].inum != 0)
              && Text(s) == Text(name) && Wrote(v.sb, old(v.Now()), v.Now(), n, k, Dirent(inum, s))
  {
    hide Owned, Empty, Contents, ReadDir, Text, TailZero, Touched, FreeBlocks, Filled, Spliced, Resized, Wrote, IsDir, LoggedOnly, Paths, EndBlock;
    ghost var f, d := v.Now(), DirOf(v.Now(), n);
    IsDirFacts(f, n);
    OwnedFacts(v.sb, f);
    var found;
    found, k := Lookup(v, n, name);
    s := name;
    if found {
      return false, k, s;
    }
    k := 0;
    while k * DIRENT < v.inodes[n].size
      invariant v.Now() == f && v.logged == old(v.logged) && k <= |d|
      invariant forall j :: 0 <= j < k ==> d[j].inum != 0
      decreases |d| - k
    {
      var e := ReadEntry(v, n, k);
      if e.inum == 0 {
        break;
      }
      k := k + 1;
    }
    s := Strncpy(name);
    EntryRoom(v.sb, f, n, k);
    var _ := v.Writei(n, k * DIRENT, Encode(Dirent(inum, s)));
    EntryWritten(v.sb, f, v.Now(), n, k, Dirent(inum, s));
    ok := true;
  }

  lemma IsDirFacts(f: Fs, n: nat)
    requires IsDir(f, n)
    ensures InodesOk(f.inodes) && n in f.inodes && f.inodes[n].size <= MAXBYTES && f.inodes[n].size % DIRENT == 0
  {
  }

  lemma EntryRoom(sb: Super, f: Fs, n: nat, k: nat)
    requires IsDir(f, n) && sb.Ok() && sb.size <= |f.disk| && k * DIRENT <= f.inodes[n].size <= MAXBYTES - DIRENT
    requires |Empty(f, n, Touched(f.inodes[n].size, DIRENT))| <= |FreeBlocks(sb, f.disk)|
    ensures |Empty(f, n, Paths((k * DIRENT) / BSIZE, EndBlock(k * DIRENT, DIRENT)))| <= |FreeBlocks(sb, f.disk)|
  {
    hide FreeBlocks;
    TouchedIs(k * DIRENT, DIRENT);
    if k * DIRENT < f.inodes[n].size {
      EntryMapped(f, n, k);
    }
  }

  /** Entry e is in slot k of directory n; nothing else has changed. */
  ghost predicate Wrote(sb: Super, f: Fs, g: Fs, n: nat, k: nat, e: Dirent)
    requires IsDir(f, n)
  {
    && Owned(sb, g) && TailZero(g) && IsDir(g, n) && k <= |DirOf(f, n)|
    && DirOf(g, n) == Placed(DirOf(f, n), k, e)
    && forall m :: m in f.inodes && m != n && f.inodes[m].size <= MAXBYTES ==>
         m in g.inodes && g.inodes[m].size == f.inodes[m].size && Contents(g, m) == Contents(f, m)
  }

  /** writei of the 16 bytes of an entry at its place, or at the end, puts the
      entry into the directory, and leaves every other file as it was. */
  lemma EntryWritten(sb: Super, f: Fs, g: Fs, n: nat, k: nat, e: Dirent)
    requires IsDir(f, n) && TailZero(f) && e.inum < 0x1_0000 && k * DIRENT <= f.inodes[n].size <= MAXBYTES - DIRENT
    requires Filled(sb, f, g, n, Paths((k * DIRENT) / BSIZE, EndBlock(k * DIRENT, DIRENT)))
    requires Spliced(f, g, n, k * DIRENT, Encode(e)) && Resized(f, g, n, k * DIRENT + DIRENT)
    ensures Wrote(sb, f, g, n, k, e)
  {
    hide Owned, Filled, Spliced, Empty, Touched, Contents, ReadDir;
    var c, src := Contents(f, n), Encode(e);
    SpliceIsOverlay(f, g, n, k * DIRENT, src);
    SpliceKeepsOthers(f, g, n, k * DIRENT, src);
    OverlayIs(c, k, e);
    WriteEntry(c, k, e);
    StillMapped(sb, f, g, n, k);
    FilledParts(sb, f, g, n, Paths((k * DIRENT) / BSIZE, EndBlock(k * DIRENT, DIRENT)));
  }

  lemma OverlayIs(c: seq<byte>, k: nat, e: Dirent)
    requires |c| % DIRENT == 0 && k * DIRENT <= |c| && e.inum < 0x1_0000
    ensures k <= |c| / DIRENT
    ensures Overlay(c, k * DIRENT, Encode(e)) == c[..k * DIRENT] + Encode(e) + (if k < |c| / DIRENT then c[k * DIRENT + DIRENT..] else [])
  {
    assert k == |c| / DIRENT ==> k * DIRENT == |c|;
  }

  /** Filling ss makes what was mapped, together with ss, mapped. */
  lemma FilledMaps(sb: Super, f: Fs, g: Fs, n: nat, ss: set<Slot>, tt: set<Slot>, uu: set<Slot>)
    requires Filled(sb, f, g, n, ss) && InodesOk(f.inodes) && SlotsOk(tt) && Empty(f, n, tt) == {} && uu <= ss + tt
    ensures InodesOk(g.inodes) && n in g.inodes && Empty(g, n, uu) == {}
  {
    FilledParts(sb, f, g, n, ss);
    EmptyOfAll(f, n, tt);
    hide Owned, FreeBlocks, Ptr;
    forall s | s in uu
      ensures s.Ok() && Ptr(g, Place(n, s)) != 0
    {
      assert s.Ok() && PlaceOk(f.inodes, Place(n, s));
    }
    EmptyOfAll(g, n, uu);
  }

  lemma WholeEntries(size: nat, k: nat)
    requires size % DIRENT == 0 && k * DIRENT <= size
    ensures k * DIRENT == size || k * DIRENT + DIRENT <= size
    ensures (size + DIRENT) % DIRENT == 0
  {
  }

  /** A directory without holes stays one. */
  lemma StillMapped(sb: Super, f: Fs, g: Fs, n: nat, k: nat)
    requires IsDir(f, n) && k * DIRENT <= f.inodes[n].size <= MAXBYTES - DIRENT
    requires Filled(sb, f, g, n, Paths((k * DIRENT) / BSIZE, EndBlock(k * DIRENT, DIRENT))) && Resized(f, g, n, k * DIRENT + DIRENT)
    ensures IsDir(g, n)
  {
    hide Filled, Empty, Touched, EndBlock, Paths;
    var ss, size := Touched(k * DIRENT, DIRENT), f.inodes[n].size;
    TouchedIs(k * DIRENT, DIRENT);
    WholeEntries(size, k);
    if k * DIRENT == size {
      TouchedJoin(0, size, DIRENT);
    }
    FilledMaps(sb, f, g, n, ss, Touched(0, size), Touched(0, g.inodes[n].size));
  }
}
