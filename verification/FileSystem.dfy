/** The block and file layer on the latest contents of the disk (what bread
    returns; the cache and log modules justify that view). The panics of bmap, of
    balloc on a full disk and of a log_write outside any operation are results of
    the calls that can reach them; writing and freeing take place in operations,
    and writing needs room on the disk. */
module FileSystem {
  import opened Blocks
  import opened FsModel

  /** The slots through which block bn of a file is reached, and its own. */
  ghost function Path(bn: nat): (ss: set<Slot>)
    requires bn < MAXFILE
    ensures SlotsOk(ss) && SlotOf(bn) in ss
  {
    match SlotOf(bn)
    case Direct(i) => {Direct(i)}
    case InSingle(i) => {Single, InSingle(i)}
    case InDouble(i, j) => {Double, Middle(i), InDouble(i, j)}
  }

  /** Paths of blocks lo .. hi - 1. */
  ghost function Paths(lo: nat, hi: nat): (ss: set<Slot>)
    requires hi <= MAXFILE
    ensures SlotsOk(ss)
    decreases hi - lo
  {
    if lo >= hi then {} else Path(lo) + Paths(lo + 1, hi)
  }

  /** len bytes at off lie within the largest file. */
  predicate InRange(off: nat, len: nat) {
    len == 0 || off + len <= MAXBYTES
  }

  /** The slots on the way to the blocks of len bytes at off. */
  ghost function Touched(off: nat, len: nat): (ss: set<Slot>)
    requires InRange(off, len)
    ensures SlotsOk(ss)
  {
    if len == 0 then {} else Paths(off / BSIZE, EndBlock(off, len))
  }

  ghost predicate BitmapBlock(sb: Super, x: nat) {
    sb.bmapstart <= x < sb.datastart
  }

  /** The blocks allocated on the way from f to g. */
  ghost function Taken(sb: Super, f: Fs, g: Fs): (bs: set<nat>)
    requires sb.Ok() && sb.size <= |f.disk| && sb.size <= |g.disk|
  {
    FreeBlocks(sb, f.disk) - FreeBlocks(sb, g.disk)
  }

  /** The bitmap blocks that hold the bits of the blocks bs. */
  ghost function BitBlocks(sb: Super, bs: set<nat>): (xs: set<nat>) {
    set b | b in bs :: sb.BitBlock(b)
  }

  /** Since was, exactly the blocks allocated on the way from f to g, their bitmap
      blocks, and other blocks that the slots ss of inode n point at were logged. */
  ghost predicate LoggedOnly(sb: Super, was: set<nat>, now: set<nat>, f: Fs, g: Fs, n: nat, ss: set<Slot>) {
    && sb.Ok() && sb.size <= |f.disk| && sb.size <= |g.disk|
    && was + Taken(sb, f, g) + BitBlocks(sb, Taken(sb, f, g)) <= now
    && forall x :: x in now && x !in was ==>
         x in BitBlocks(sb, Taken(sb, f, g)) || (x in g.owner && g.owner[x].inum == n && g.owner[x].slot in ss)
  }

  /** Filling the empty slots among ss ends in a panic: outside any operation with
      the first of them, and otherwise when the disk has not enough free blocks. */
  ghost predicate Stuck(sb: Super, f: Fs, n: nat, ss: set<Slot>, outstanding: nat)
    requires InodesOk(f.inodes) && n in f.inodes && sb.Ok() && sb.size <= |f.disk|
  {
    (outstanding < 1 && Empty(f, n, ss) != {}) || |Empty(f, n, ss)| > |FreeBlocks(sb, f.disk)|
  }

  lemma StuckOne(sb: Super, f: Fs, n: nat, s: Slot, outstanding: nat)
    requires InodesOk(f.inodes) && n in f.inodes && sb.Ok() && sb.size <= |f.disk| && s.Ok()
    ensures Stuck(sb, f, n, {s}, outstanding) <==> Ptr(f, Place(n, s)) == 0 && (outstanding < 1 || FreeBlocks(sb, f.disk) == {})
  {
    if Ptr(f, Place(n, s)) == 0 {
      assert Empty(f, n, {s}) == {s};
    } else {
      assert Empty(f, n, {s}) == {};
    }
  }

  /** Outside any operation only mapped slots get through. */
  lemma EmptyNoStuck(sb: Super, f: Fs, n: nat, ss: set<Slot>, outstanding: nat)
    requires InodesOk(f.inodes) && n in f.inodes && sb.Ok() && sb.size <= |f.disk|
    ensures outstanding < 1 && !Stuck(sb, f, n, ss, outstanding) ==> Empty(f, n, ss) == {}
    ensures Empty(f, n, ss) == {} ==> !Stuck(sb, f, n, ss, outstanding)
  {
  }

  /** More slots, more trouble. */
  lemma StuckMore(sb: Super, f: Fs, n: nat, ss: set<Slot>, tt: set<Slot>, outstanding: nat)
    requires InodesOk(f.inodes) && n in f.inodes && sb.Ok() && sb.size <= |f.disk| && ss <= tt
    ensures Stuck(sb, f, n, ss, outstanding) ==> Stuck(sb, f, n, tt, outstanding)
  {
    EmptyLess(f, n, ss, tt);
    assert Empty(f, n, ss) <= Empty(f, n, tt);
  }

  /** Once ss is filled, what is left are the slots of tt. */
  lemma StuckThen(sb: Super, f: Fs, g: Fs, n: nat, ss: set<Slot>, tt: set<Slot>, outstanding: nat)
    requires Filled(sb, f, g, n, ss) && (outstanding < 1 ==> Empty(f, n, ss) == {} && g == f)
    ensures InodesOk(f.inodes) && InodesOk(g.inodes) && n in g.inodes && sb.Ok() && sb.size <= |f.disk| && sb.size <= |g.disk|
    ensures Stuck(sb, f, n, ss + tt, outstanding) <==> Stuck(sb, g, n, tt, outstanding)
    ensures !Stuck(sb, f, n, ss, outstanding)
  {
    EmptyRest(sb, f, g, n, ss, tt);
    hide Owned, FreeBlocks;
    if outstanding < 1 {
      assert Empty(f, n, ss + tt) == Empty(f, n, tt);
    }
  }

  class Volume {
    const sb: Super
    var disk: seq<Block>
    var inodes: map<nat, Inode>      // as held in memory
    var dinodes: map<nat, Inode>     // as iupdate last wrote them to their blocks
    var outstanding: nat             // operations between begin_op and end_op
    ghost var owner: map<nat, Place>
    ghost var logged: set<nat>       // the blocks passed to log_write

    /** A formatted volume: the metadata is marked in use, and there are no files. */
    constructor (layout: Super, d: seq<Block>)
      requires layout.Ok() && layout.size <= |d| && forall b: nat :: b < layout.datastart ==> InUse(layout, d, b)
      ensures sb == layout && disk == d && inodes == map[] && dinodes == map[] && outstanding == 0
      ensures owner == map[] && logged == {}
      ensures Owned(sb, Now()) && TailZero(Now())
    {
      sb, disk, inodes, dinodes, outstanding, owner, logged := layout, d, map[], map[], 0, map[], {};
      EmptyVolume(layout, d);
    }

    /** ialloc, for the free inode n that its scan found: blank in memory and on
        the disk. No other file changes. */
    method Ialloc(n: nat)
      requires Owned(sb, Now()) && TailZero(Now()) && n !in inodes && outstanding >= 1
      modifies this`inodes, this`dinodes, this`logged
      ensures inodes == old(inodes)[n := BlankInode()] && dinodes == old(dinodes)[n := BlankInode()]
      ensures logged == old(logged) + {InodeBlock(sb, n)}
      ensures Owned(sb, Now()) && TailZero(Now())
      ensures forall k: nat, pos: nat :: k in old(inodes) && pos < MAXBYTES ==> ByteOf(Now(), k, pos) == ByteOf(old(Now()), k, pos)
    {
      NewInode(sb, Now(), n);
      inodes, dinodes := inodes[n := BlankInode()], dinodes[n := BlankInode()];
      var _ := LogWrite(InodeBlock(sb, n));
    }

    ghost function Now(): (f: Fs)
      reads this
    {
      Fs(disk, inodes, owner)
    }

    /** The inner loop of balloc: the bits of one bitmap block. */
    method ScanBits(base: nat, ghost q: nat) returns (bi: nat)
      requires sb.Ok() && sb.size <= |disk| && base == BPB * q && base < sb.size
      ensures bi <= BPB
      ensures forall c: nat :: base <= c < base + bi && c < sb.size ==> InUse(sb, disk, c)
      ensures bi < BPB && base + bi < sb.size ==> !InUse(sb, disk, base + bi)
    {
      bi := 0;
      while bi < BPB && base + bi < sb.size
        invariant bi <= BPB
        invariant forall c: nat :: base <= c < base + bi && c < sb.size ==> InUse(sb, disk, c)
      {
        BitBlockIsMeta(sb, base + bi);
        BitOf(sb, q, bi);
        if !Bit(disk[sb.BitBlock(base)][bi / 8], bi % 8) {
          return;
        }
        bi := bi + 1;
      }
    }

    /** The search of balloc: bitmap block by bitmap block, bit by bit. */
    method FindFree() returns (found: bool, b: nat)
      requires sb.Ok() && sb.size <= |disk|
      ensures found <==> FreeBlocks(sb, disk) != {}
      ensures found ==> b < sb.size && !InUse(sb, disk, b)
      ensures found ==> forall c: nat :: c < b ==> InUse(sb, disk, c)
    {
      hide InUse;
      var base := 0;
      ghost var q := 0;
      while base < sb.size
        invariant 0 <= q && base == BPB * q
        invariant forall c: nat :: c < base && c < sb.size ==> InUse(sb, disk, c)
      {
        var bi := ScanBits(base, q);
        if bi < BPB && base + bi < sb.size {
          assert base + bi in FreeBlocks(sb, disk);
          return true, base + bi;
        }
        base, q := base + BPB, q + 1;
      }
      return false, 0;
    }

    /** log_write, which panics outside any operation. */
    method LogWrite(ghost b: nat) returns (panicked: bool)
      modifies this`logged
      ensures panicked <==> outstanding < 1
      ensures logged == if panicked then old(logged) else old(logged) + {b}
    {
      panicked := outstanding < 1;
      if !panicked {
        logged := logged + {b};
      }
    }

    /** balloc: the lowest free block, marked in use and zeroed. */
    method Balloc() returns (b: uint, panicked: bool)
      requires Owned(sb, Now())
      modifies this`disk, this`logged
      ensures panicked <==> outstanding < 1 || FreeBlocks(sb, old(disk)) == {}
      ensures !panicked ==> Allocated(sb, old(disk), disk, b)
      ensures !panicked ==> forall c: nat :: c < b ==> InUse(sb, old(disk), c)
      ensures !panicked ==> logged == old(logged) + {sb.BitBlock(b), b}
    {
      var found, c := FindFree();
      if !found {
        return 0, true;
      }
      b := c;
      assert b >= sb.datastart by { assert !InUse(sb, disk, b); }
      Mark(b);
      panicked := LogWrite(sb.BitBlock(b));
      if panicked {
        return;
      }
      ghost var d := disk;
      disk := disk[b := ZeroBlock()];
      panicked := LogWrite(b);
      SameBits(sb, d, disk);
    }

    /** Flip the bit of block b in its bitmap block. */
    method Mark(b: nat)
      requires sb.Ok() && sb.size <= |disk| && b < sb.size
      modifies this`disk
      ensures |disk| == |old(disk)|
      ensures forall c: nat :: c < sb.size ==>
                (InUse(sb, disk, c) <==> if c == b then !InUse(sb, old(disk), b) else InUse(sb, old(disk), c))
      ensures forall x: nat :: x < |disk| && x != sb.BitBlock(b) ==> disk[x] == old(disk)[x]
    {
      var bb, k := sb.BitBlock(b), b % BPB;
      BitBlockIsMeta(sb, b);
      disk := disk[bb := disk[bb][k / 8 := FlipBit(disk[bb][k / 8], k % 8)]];
      forall c: nat | c < sb.size
        ensures InUse(sb, disk, c) <==> if c == b then !InUse(sb, old(disk), b) else InUse(sb, old(disk), c)
      {
        MarkedBit(sb, old(disk), b, c);
      }
    }

    /** `if((addr = ip->addrs[k]) == 0) ip->addrs[k] = addr = balloc(...)` */
    method EnsureAddr(n: nat, k: nat, ghost s: Slot) returns (addr: uint, panicked: bool)
      requires Owned(sb, Now()) && n in inodes && InInode(s) && s.Ok() && k == AddrIndex(s)
      modifies this`disk, this`inodes, this`owner, this`logged
      ensures panicked <==> Stuck(sb, old(Now()), n, {s}, outstanding)
      ensures !panicked ==> Extended(sb, old(Now()), Now(), n, {s}) && addr == Ptr(Now(), Place(n, s))
      ensures !panicked ==> LoggedOnly(sb, old(logged), logged, old(Now()), Now(), n, {s})
      ensures Ptr(old(Now()), Place(n, s)) != 0 ==> Now() == old(Now()) && logged == old(logged)
    {
      hide Extended, Filled, FreeBlocks, InUse, Empty, Allocated, Stuck, LoggedOnly, Taken, Owned;
      ghost var f, p := Now(), Place(n, s);
      OwnedFacts(sb, f);
      StuckOne(sb, f, n, s, outstanding);
      addr, panicked := inodes[n].addrs[k], false;
      AtIsEntry(disk, inodes[n], s);
      if addr == 0 {
        addr, panicked := Balloc();
        if panicked {
          return;
        }
        FillSlot(sb, f, disk, p, addr);
        TakenOne(sb, f, disk, disk, addr);
        inodes := inodes[n := inodes[n].(addrs := inodes[n].addrs[k := addr])];
        owner := owner[addr := p];
        assert Now() == SetPtr(f.(disk := disk), p, addr);
        LoggedOne(sb, old(logged), f, Now(), n, {s}, addr, {});
        assert logged == old(logged) + {sb.BitBlock(addr), addr} + {};
      } else {
        ExtendedNothing(sb, f, n, {s});
        LoggedNone(sb, logged, f, n, {s});
      }
    }

    /** `if((addr = a[i]) == 0){ a[i] = addr = balloc(...); log_write(bp); }` */
    method EnsureWord(n: nat, x: nat, i: nat, ghost s: Slot) returns (addr: uint, panicked: bool)
      requires Owned(sb, Now()) && n in inodes && !InInode(s) && s.Ok() && i == IndexIn(s)
      requires Parent(s).Ok() && x == Ptr(Now(), Place(n, Parent(s))) != 0
      modifies this`disk, this`owner, this`logged
      ensures panicked <==> Stuck(sb, old(Now()), n, {s}, outstanding)
      ensures !panicked ==> Extended(sb, old(Now()), Now(), n, {s}) && addr == Ptr(Now(), Place(n, s))
      ensures !panicked ==> LoggedOnly(sb, old(logged), logged, old(Now()), Now(), n, {s, Parent(s)})
      ensures Ptr(old(Now()), Place(n, s)) != 0 ==> Now() == old(Now()) && logged == old(logged)
    {
      hide Extended, Filled, FreeBlocks, InUse, Empty, Allocated, Stuck, LoggedOnly, Taken, Owned, InodesOk;
      ghost var f, p := Now(), Place(n, s);
      OwnedFacts(sb, f);
      StuckOne(sb, f, n, s, outstanding);
      ParentOwned(sb, f, p);
      AtIsEntry(disk, inodes[n], s);
      addr, panicked := Word(disk[x], i), false;
      if addr == 0 {
        addr, panicked := Balloc();
        if panicked {
          return;
        }
        ghost var e := disk;
        disk := disk[x := SetWord(disk[x], i, addr)];
        panicked := LogWrite(x);
        owner := owner[addr := p];
        WordFilled(sb, f, e, Now(), p, x, i, addr, old(logged), logged);
        OwnerIs(sb, Now(), addr);
      } else {
        ExtendedNothing(sb, f, n, {s});
        LoggedNone(sb, logged, f, n, {s, Parent(s)});
      }
    }

    /** bmap: the block number of the file's bn-th block, allocating it and the
        index blocks on its path where they are missing. It panics on a block
        number that is out of range. */
    method Bmap(n: nat, bn: nat) returns (addr: uint, panicked: bool)
      requires Owned(sb, Now()) && n in inodes
      modifies this`disk, this`inodes, this`owner, this`logged
      ensures panicked <==> bn >= MAXFILE || Stuck(sb, old(Now()), n, Path(bn), outstanding)
      ensures !panicked ==> Extended(sb, old(Now()), Now(), n, Path(bn))
      ensures !panicked ==> addr == Ptr(Now(), Place(n, SlotOf(bn)))
      ensures !panicked ==> |inodes[n].addrs| == NDIRECT + 2 && addr != 0 && Names(disk, inodes[n], bn, addr)
      ensures !panicked ==> LoggedOnly(sb, old(logged), logged, old(Now()), Now(), n, Path(bn))
      ensures bn >= MAXFILE || Empty(old(Now()), n, Path(bn)) == {} ==> Now() == old(Now()) && logged == old(logged)
    {
      hide Extended, LoggedOnly, Owned, Names;
      ghost var f, lg := Now(), logged;
      ExtendedFacts(sb, f, n);
      if bn >= MAXFILE {
        return 0, true;
      }
      addr, panicked := BmapLevel(n, bn);
      if !panicked {
        ExtendedIs(sb, f, Now(), n, Path(bn));
        NamesAt(disk, inodes[n], bn);
      }
    }

    /** The three cases of bmap. */
    method BmapLevel(n: nat, bn: nat) returns (addr: uint, panicked: bool)
      requires Owned(sb, Now()) && n in inodes && bn < MAXFILE
      modifies this`disk, this`inodes, this`owner, this`logged
      ensures panicked <==> Stuck(sb, old(Now()), n, Path(bn), outstanding)
      ensures !panicked ==> Extended(sb, old(Now()), Now(), n, Path(bn))
      ensures !panicked ==> addr == Ptr(Now(), Place(n, SlotOf(bn)))
      ensures !panicked ==> LoggedOnly(sb, old(logged), logged, old(Now()), Now(), n, Path(bn))
      ensures Empty(old(Now()), n, Path(bn)) == {} ==> Now() == old(Now()) && logged == old(logged)
    {
      hide Extended, LoggedOnly, Owned;
      ghost var f, lg := Now(), logged;
      ExtendedFacts(sb, f, n);
      if bn < NDIRECT {
        addr, panicked := EnsureAddr(n, bn, Direct(bn));
        EmptyPath(f, n, bn);
        return;
      }
      var k := bn - NDIRECT;
      if k < NINDIRECT {
        addr, panicked := BmapSingle(n, k);
        return;
      }
      k := k - NINDIRECT;
      addr, panicked := BmapDouble(n, k / NINDIRECT, k % NINDIRECT);
    }

    /** The single indirect case of bmap. */
    method BmapSingle(n: nat, k: nat) returns (addr: uint, panicked: bool)
      requires Owned(sb, Now()) && n in inodes && k < NINDIRECT
      modifies this`disk, this`inodes, this`owner, this`logged
      ensures panicked <==> Stuck(sb, old(Now()), n, {Single, InSingle(k)}, outstanding)
      ensures !panicked ==> Extended(sb, old(Now()), Now(), n, {Single, InSingle(k)})
      ensures !panicked ==> addr == Ptr(Now(), Place(n, InSingle(k)))
      ensures !panicked ==> LoggedOnly(sb, old(logged), logged, old(Now()), Now(), n, {Single, InSingle(k)})
      ensures Empty(old(Now()), n, {Single, InSingle(k)}) == {} ==> Now() == old(Now()) && logged == old(logged)
    {
      hide Extended, LoggedOnly, Owned, Stuck;
      ghost var f, lg, s, t := Now(), logged, Single, InSingle(k);
      ExtendedFacts(sb, f, n);
      EmptyOfAll(f, n, {s, t});
      assert {s} + {t} == {s, t};
      StuckMore(sb, f, n, {s}, {s, t}, outstanding);
      var x, stop := EnsureAddr(n, NDIRECT, s);
      if stop {
        return 0, true;
      }
      ghost var g, lg1 := Now(), logged;
      ExtendedIs(sb, f, g, n, {s});
      EmptyOfAll(f, n, {s});
      EmptyNoStuck(sb, f, n, {s}, outstanding);
      StuckThen(sb, f, g, n, {s}, {t}, outstanding);
      addr, panicked := EnsureWord(n, x, k, t);
      if panicked {
        return;
      }
      ExtendedIs(sb, g, Now(), n, {t});
      ExtendedBoth(sb, f, g, Now(), n, {s}, {t});
      OwnersKept(sb, g, Now(), n, {t});
      LoggedBoth(sb, lg, lg1, logged, f, g, Now(), n, {s}, {t, s}, {s, t});
    }

    /** The upper two levels of the double indirect case of bmap. */
    method BmapMiddle(n: nat, i: nat) returns (y: uint, panicked: bool)
      requires Owned(sb, Now()) && n in inodes && i < NINDIRECT
      modifies this`disk, this`inodes, this`owner, this`logged
      ensures panicked <==> Stuck(sb, old(Now()), n, {Double, Middle(i)}, outstanding)
      ensures !panicked ==> Extended(sb, old(Now()), Now(), n, {Double, Middle(i)})
      ensures !panicked ==> y == Ptr(Now(), Place(n, Middle(i)))
      ensures !panicked ==> LoggedOnly(sb, old(logged), logged, old(Now()), Now(), n, {Double, Middle(i)})
      ensures Empty(old(Now()), n, {Double, Middle(i)}) == {} ==> Now() == old(Now()) && logged == old(logged)
    {
      hide Extended, LoggedOnly, Owned, Stuck;
      ghost var f, lg, s, t := Now(), logged, Double, Middle(i);
      ExtendedFacts(sb, f, n);
      EmptyOfAll(f, n, {s, t});
      assert {s} + {t} == {s, t};
      StuckMore(sb, f, n, {s}, {s, t}, outstanding);
      var x, stop := EnsureAddr(n, NDIRECT + 1, s);
      if stop {
        return 0, true;
      }
      ghost var g, lg1 := Now(), logged;
      ExtendedIs(sb, f, g, n, {s});
      EmptyOfAll(f, n, {s});
      EmptyNoStuck(sb, f, n, {s}, outstanding);
      StuckThen(sb, f, g, n, {s}, {t}, outstanding);
      y, panicked := EnsureWord(n, x, i, t);
      if panicked {
        return;
      }
      ExtendedIs(sb, g, Now(), n, {t});
      ExtendedBoth(sb, f, g, Now(), n, {s}, {t});
      OwnersKept(sb, g, Now(), n, {t});
      LoggedBoth(sb, lg, lg1, logged, f, g, Now(), n, {s}, {t, s}, {s, t});
    }

    /** The double indirect case of bmap. */
    method BmapDouble(n: nat, i: nat, j: nat) returns (addr: uint, panicked: bool)
      requires Owned(sb, Now()) && n in inodes && i < NINDIRECT && j < NINDIRECT
      modifies this`disk, this`inodes, this`owner, this`logged
      ensures panicked <==> Stuck(sb, old(Now()), n, {Double, Middle(i), InDouble(i, j)}, outstanding)
      ensures !panicked ==> Extended(sb, old(Now()), Now(), n, {Double, Middle(i), InDouble(i, j)})
      ensures !panicked ==> addr == Ptr(Now(), Place(n, InDouble(i, j)))
      ensures !panicked ==> LoggedOnly(sb, old(logged), logged, old(Now()), Now(), n, {Double, Middle(i), InDouble(i, j)})
      ensures Empty(old(Now()), n, {Double, Middle(i), InDouble(i, j)}) == {} ==> Now() == old(Now()) && logged == old(logged)
    {
      hide Extended, LoggedOnly, Owned, Stuck;
      ghost var f, lg, ss, u := Now(), logged, {Double, Middle(i)}, InDouble(i, j);
      ExtendedFacts(sb, f, n);
      EmptyOfAll(f, n, ss + {u});
      assert ss + {u} == {Double, Middle(i), u};
      EmptyOfAll(f, n, ss);
      StuckMore(sb, f, n, ss, ss + {u}, outstanding);
      var y, stop := BmapMiddle(n, i);
      if stop {
        return 0, true;
      }
      ghost var g, lg1 := Now(), logged;
      ExtendedIs(sb, f, g, n, ss);
      EmptyNoStuck(sb, f, n, ss, outstanding);
      StuckThen(sb, f, g, n, ss, {u}, outstanding);
      addr, panicked := EnsureWord(n, y, j, u);
      if panicked {
        return;
      }
      ExtendedIs(sb, g, Now(), n, {u});
      ExtendedBoth(sb, f, g, Now(), n, ss, {u});
      OwnersKept(sb, g, Now(), n, {u});
      LoggedBoth(sb, lg, lg1, logged, f, g, Now(), n, ss, {u, Middle(i)}, ss + {u});
    }

    /** The body of readi's loop: m bytes of block k from offset o on. */
    method ReadBlock(n: nat, k: nat, o: nat, m: nat) returns (data: seq<byte>, panicked: bool)
      requires Owned(sb, Now()) && n in inodes && o + m <= BSIZE
      modifies this`disk, this`inodes, this`owner, this`logged
      ensures panicked <==> k >= MAXFILE || Stuck(sb, old(Now()), n, Path(k), outstanding)
      ensures !panicked ==> BSIZE * k + o + m <= MAXBYTES && data == Slice(old(Now()), n, BSIZE * k + o, m)
      ensures !panicked ==> Extended(sb, old(Now()), Now(), n, Path(k))
      ensures !panicked ==> LoggedOnly(sb, old(logged), logged, old(Now()), Now(), n, Path(k))
      ensures k >= MAXFILE || Empty(old(Now()), n, Path(k)) == {} ==> Now() == old(Now()) && logged == old(logged)
    {
      hide Extended, LoggedOnly, Owned, Path, Empty, FreeBlocks, Stuck;
      ghost var f := Now();
      var addr, stop := Bmap(n, k);
      if stop {
        return [], true;
      }
      panicked := false;
      ExtendedIs(sb, f, Now(), n, Path(k));
      CopiedBytes(sb, f, Now(), n, Path(k), k, o, m);
      data := disk[addr][o..o + m];
    }

    method ReadStep(ghost f: Fs, ghost lg: set<nat>, n: nat, ghost lo: nat, c: Chunk)
      returns (chunk: seq<byte>, panicked: bool)
      requires Owned(sb, Now()) && n in inodes && Owned(sb, f) && n in f.inodes && c.o + c.m <= BSIZE
      requires c.k < MAXFILE ==> Reading(sb, f, Now(), lg, logged, n, lo, c.k, outstanding)
      modifies this`disk, this`inodes, this`owner, this`logged
      ensures panicked <==> c.k >= MAXFILE || Stuck(sb, f, n, Paths(lo, c.k + 1), outstanding)
      ensures !panicked ==> Reading(sb, f, Now(), lg, logged, n, lo, c.k + 1, outstanding)
      ensures !panicked ==> BSIZE * c.k + c.o + c.m <= MAXBYTES && chunk == Slice(f, n, BSIZE * c.k + c.o, c.m)
    {
      hide Reading, Owned, Extended, LoggedOnly, Path, Paths, Empty, FreeBlocks, Slice, Stuck;
      ghost var g, lg1 := Now(), logged;
      if c.k < MAXFILE {
        ReadReady(sb, f, g, lg, lg1, n, lo, c.k, outstanding);
      }
      chunk, panicked := ReadBlock(n, c.k, c.o, c.m);
      if panicked {
        return;
      }
      ReadOn(sb, f, g, Now(), lg, lg1, logged, n, lo, c.k, outstanding);
      SameSlice(f, g, n, BSIZE * c.k + c.o, c.m);
    }

    /** One round of readi's loop, after tot of len bytes. */
    method ReadRound(ghost f: Fs, ghost lg: set<nat>, n: nat, off: nat, len: nat, tot: nat, ghost data: seq<byte>)
      returns (chunk: seq<byte>, panicked: bool)
      requires tot < len && Copying(sb, f, Now(), lg, logged, n, off, len, tot, data, outstanding)
      modifies this`disk, this`inodes, this`owner, this`logged
      ensures panicked ==> Fault(sb, f, n, off, len, outstanding)
      ensures !panicked ==> 0 < |chunk| <= len - tot
      ensures !panicked ==> Copying(sb, f, Now(), lg, logged, n, off, len, tot + |chunk|, data + chunk, outstanding)
    {
      hide Copying, Owned, Reading, Slice, EndBlock, ChunkAt, Stuck, Paths, Fault;
      CopyReady(sb, f, Now(), lg, logged, n, off, len, tot, data, outstanding);
      var c := ChunkAt(off + tot, len - tot);
      chunk, panicked := ReadStep(f, lg, n, off / BSIZE, c);
      if panicked {
        ReadStuck(sb, f, n, off, len, c.k, outstanding);
      } else {
        CopyStep(sb, f, Now(), lg, logged, n, off, len, tot, data, chunk, outstanding);
      }
    }

    /** The loop of readi. */
    method ReadRange(n: nat, off: nat, len: nat) returns (data: seq<byte>, panicked: bool)
      requires Owned(sb, Now()) && n in inodes
      modifies this`disk, this`inodes, this`owner, this`logged
      ensures panicked <==> !InRange(off, len) || Stuck(sb, old(Now()), n, Touched(off, len), outstanding)
      ensures !panicked && len > 0 ==> data == Slice(old(Now()), n, off, len)
      ensures !panicked ==> |data| == len
      ensures !panicked ==> Extended(sb, old(Now()), Now(), n, Touched(off, len))
      ensures !panicked ==> LoggedOnly(sb, old(logged), logged, old(Now()), Now(), n, Touched(off, len))
      ensures InRange(off, len) && Empty(old(Now()), n, Touched(off, len)) == {} ==> Now() == old(Now()) && logged == old(logged)
    {
      hide Extended, LoggedOnly, Owned, Empty, Slice, Stuck, Touched, InodesOk, Copying;
      ghost var f, lg := Now(), logged;
      CopyStart(sb, f, lg, n, off, len, outstanding);
      data := [];
      var tot := 0;
      while tot < len
        invariant 0 <= tot <= len
        invariant Copying(sb, f, Now(), lg, logged, n, off, len, tot, data, outstanding)
      {
        var chunk, stop := ReadRound(f, lg, n, off, len, tot, data);
        if stop {
          return [], true;
        }
        data, tot := data + chunk, tot + |chunk|;
      }
      CopyDone(sb, f, Now(), lg, logged, n, off, len, data, outstanding);
      panicked := false;
    }

    /** readi on a regular file or directory: the slice of the file's bytes.
        Reading maps the blocks of holes on its way. It panics exactly when it
        comes to a block past the largest file, which only a size past the
        largest file lets it, or cannot fill a hole: with no operation
        outstanding, or for want of free blocks. */
    method Readi(n: nat, off: uint, cnt: uint) returns (r: int, data: seq<byte>, panicked: bool)
      requires Owned(sb, Now()) && n in inodes
      modifies this`disk, this`inodes, this`owner, this`logged
      ensures r == -1 <==> off > old(inodes)[n].size || off + cnt >= UINT_LIMIT
      ensures r == -1 ==> Now() == old(Now()) && logged == old(logged) && data == [] && !panicked
      ensures r != -1 ==>
                && r == Clip(old(inodes)[n].size, off, cnt)
                && 0 <= r <= cnt && off + r <= old(inodes)[n].size && (r < cnt ==> off + r == old(inodes)[n].size)
                && (panicked <==> !InRange(off, r) || Stuck(sb, old(Now()), n, Touched(off, r), outstanding))
                && (InRange(off, r) && Empty(old(Now()), n, Touched(off, r)) == {} ==> Now() == old(Now()) && logged == old(logged))
                && (!panicked ==>
                      && |data| == r && (r > 0 ==> data == Slice(old(Now()), n, off, r))
                      && Extended(sb, old(Now()), Now(), n, Touched(off, r))
                      && LoggedOnly(sb, old(logged), logged, old(Now()), Now(), n, Touched(off, r)))
    {
      hide Extended, LoggedOnly, Owned, Touched, Empty, FreeBlocks, Slice, Stuck;
      if off > inodes[n].size || (off + cnt) % UINT_LIMIT < off {
        return -1, [], false;
      }
      var len := cnt;
      if off + len > inodes[n].size {
        len := inodes[n].size - off;
      }
      data, panicked := ReadRange(n, off, len);
      r := len;
    }

    /** The body of writei's loop: store piece into block k at offset o. */
    method WriteBlock(n: nat, k: nat, o: nat, piece: seq<byte>)
      requires Owned(sb, Now()) && n in inodes && k < MAXFILE && o + |piece| <= BSIZE && outstanding >= 1
      requires !Stuck(sb, Now(), n, Path(k), outstanding)
      modifies this`disk, this`inodes, this`owner, this`logged
      ensures Filled(sb, old(Now()), Now(), n, Path(k)) && SameSizes(old(Now()), Now())
      ensures Spliced(old(Now()), Now(), n, BSIZE * k + o, piece)
      ensures LoggedOnly(sb, old(logged), logged, old(Now()), Now(), n, Path(k))
    {
      hide Extended, Filled, LoggedOnly, Owned, SameSizes, Spliced, Path, Stuck;
      ghost var f := Now();
      var addr, _ := Bmap(n, k);
      ExtendedIs(sb, f, Now(), n, Path(k));
      PtrIs(sb, Now(), Place(n, SlotOf(k)));
      BlockWritten(sb, f, Now(), old(logged), logged, n, k, addr, o, piece);
      disk := disk[addr := Patch(disk[addr], o, piece)];
      var _ := LogWrite(addr);
    }

    method WriteStep(ghost f: Fs, ghost lg: set<nat>, n: nat, ghost lo: nat, c: Chunk, ghost hi: nat,
                     ghost off: nat, ghost done: seq<byte>, piece: seq<byte>)
      requires LoopAt(sb, f, Now(), lg, logged, n, lo, c.k) && c.k < hi <= MAXFILE && c.o + c.m <= BSIZE
      requires Ready(sb, Now(), n, c.k, hi, outstanding)
      requires Spliced(f, Now(), n, off, done) && |piece| == c.m && off + |done| == BSIZE * c.k + c.o && outstanding >= 1
      modifies this`disk, this`inodes, this`owner, this`logged
      ensures LoopAt(sb, f, Now(), lg, logged, n, lo, c.k + 1) && Ready(sb, Now(), n, c.k + 1, hi, outstanding)
      ensures Spliced(f, Now(), n, off, done + piece)
    {
      hide LoopAt, Owned, Filled, LoggedOnly, Path, Paths, Empty, FreeBlocks, SameSizes, Spliced, InodesOk, Stuck;
      ghost var g, lg1 := Now(), logged;
      LoopReady(sb, f, g, lg, lg1, n, lo, c.k);
      PathsSplit(c.k, c.k, hi);
      StuckMore(sb, g, n, Path(c.k), Paths(c.k, hi), outstanding);
      WriteBlock(n, c.k, c.o, piece);
      StuckThen(sb, g, Now(), n, Path(c.k), Paths(c.k + 1, hi), outstanding);
      LoopStep(sb, f, g, Now(), lg, lg1, logged, n, lo, c.k);
      LoopReady(sb, f, Now(), lg, logged, n, lo, c.k + 1);
      SplicedBoth(f, g, Now(), n, off, done, piece);
    }

    /** The loop of writei. */
    method WriteRange(n: nat, off: nat, src: seq<byte>)
      requires Owned(sb, Now()) && n in inodes && off + |src| <= MAXBYTES && outstanding >= 1
      requires |Empty(Now(), n, Paths(off / BSIZE, EndBlock(off, |src|)))| <= |FreeBlocks(sb, disk)|
      modifies this`disk, this`inodes, this`owner, this`logged
      ensures Filled(sb, old(Now()), Now(), n, Paths(off / BSIZE, EndBlock(off, |src|)))
      ensures SameSizes(old(Now()), Now()) && Spliced(old(Now()), Now(), n, off, src)
      ensures LoggedOnly(sb, old(logged), logged, old(Now()), Now(), n, Paths(off / BSIZE, EndBlock(off, |src|)))
    {
      hide Filled, LoggedOnly, Owned, Paths, Path, Empty, FreeBlocks, EndBlock, LoopAt, ChunkAt, InodesOk, SameSizes, Spliced, Ready;
      var len := |src|;
      ghost var f, lg, lo, hi := Now(), logged, off / BSIZE, EndBlock(off, len);
      LoopStart(sb, f, lg, n, off, len);
      ReadyStart(sb, f, n, lo, hi, outstanding);
      SplicedNothing(f, n, off);
      ghost var k := lo;
      var tot := 0;
      while tot < len
        invariant 0 <= tot <= len
        invariant lo <= k <= hi && if tot < len then k == ChunkAt(off + tot, len - tot).k else k == hi
        invariant LoopAt(sb, f, Now(), lg, logged, n, lo, k) && Ready(sb, Now(), n, k, hi, outstanding)
        invariant Spliced(f, Now(), n, off, src[..tot])
      {
        NextChunk(off, tot, len);
        var c := ChunkAt(off + tot, len - tot);
        WriteStep(f, lg, n, lo, c, hi, off, src[..tot], src[tot..tot + c.m]);
        assert src[..tot] + src[tot..tot + c.m] == src[..tot + c.m];
        tot := tot + c.m;
        k := k + 1;
      }
      assert src[..tot] == src;
      LoopDone(sb, f, Now(), lg, logged, n, lo, hi);
    }

    /** writei on a regular file or directory: the splice of src at off. The inode
        goes to the disk only when the file grows, so the disk's copy stays equal
        to the one in memory if it grew or none of the inode's own addresses was
        filled, and only then. */
    method Writei(n: nat, off: uint, src: seq<byte>) returns (r: int)
      requires Owned(sb, Now()) && n in inodes && |src| < UINT_LIMIT && outstanding >= 1
      requires off <= inodes[n].size && off + |src| <= MAXBYTES ==>
                 |Empty(Now(), n, Paths(off / BSIZE, EndBlock(off, |src|)))| <= |FreeBlocks(sb, disk)|
      modifies this`disk, this`inodes, this`dinodes, this`owner, this`logged
      ensures r == -1 <==> off > old(inodes)[n].size || off + |src| > MAXBYTES
      ensures r == -1 ==> Now() == old(Now()) && logged == old(logged) && dinodes == old(dinodes)
      ensures r != -1 ==>
                && r == |src|
                && Filled(sb, old(Now()), Now(), n, Paths(off / BSIZE, EndBlock(off, |src|)))
                && Spliced(old(Now()), Now(), n, off, src)
                && Resized(old(Now()), Now(), n, off + |src|)
                && LoggedOnly(sb, old(logged) + {InodeBlock(sb, n)}, logged + {InodeBlock(sb, n)}, old(Now()), Now(), n, Paths(off / BSIZE, EndBlock(off, |src|)))
                && Taken(sb, old(Now()), Now()) + BitBlocks(sb, Taken(sb, old(Now()), Now())) <= logged
                && (|src| > 0 && off + |src| > old(inodes)[n].size ==> InodeBlock(sb, n) in logged)
                && dinodes == (if |src| > 0 && off + |src| > old(inodes)[n].size then old(dinodes)[n := inodes[n]] else old(dinodes))
                && (OnDisk(old(inodes), old(dinodes), n) ==>
                      (OnDisk(inodes, dinodes, n) <==>
                         off + |src| > old(inodes)[n].size || Empty(old(Now()), n, Roots(Paths(off / BSIZE, EndBlock(off, |src|)))) == {}))
    {
      hide Filled, LoggedOnly, Owned, Paths, Empty, FreeBlocks, EndBlock, SameSizes, Spliced, Resized, InodesOk;
      if off > inodes[n].size || (off + |src|) % UINT_LIMIT < off {
        return -1;
      }
      if off + |src| > MAXBYTES {
        return -1;
      }
      ghost var f := Now();
      WriteRange(n, off, src);
      ghost var g := Now();
      FilledParts(sb, f, g, n, Paths(off / BSIZE, EndBlock(off, |src|)));
      ResizedNot(f, g, n, off + |src|);
      AddrsKept(sb, f, g, n, Paths(off / BSIZE, EndBlock(off, |src|)));
      LoggedWider(sb, old(logged), logged, f, g, n, Paths(off / BSIZE, EndBlock(off, |src|)), InodeBlock(sb, n));
      if |src| > 0 && off + |src| > inodes[n].size {
        inodes := inodes[n := inodes[n].(size := off + |src|)];
        dinodes := dinodes[n := inodes[n]];
        var _ := LogWrite(InodeBlock(sb, n));
        SizeOnly(sb, f, g, n, Paths(off / BSIZE, EndBlock(off, |src|)), off, src);
        LoggedSame(sb, old(logged) + {InodeBlock(sb, n)}, logged + {InodeBlock(sb, n)}, f, g, Now(), n, Paths(off / BSIZE, EndBlock(off, |src|)));
        assert logged + {InodeBlock(sb, n)} == logged;
      }
      r := |src|;
    }

    /** bfree: clear the bit of a block in use (it panics on a free one). */
    method Bfree(b: nat)
      requires sb.Ok() && sb.size <= |disk| && b < sb.size && InUse(sb, disk, b) && outstanding >= 1
      modifies this`disk, this`logged
      ensures OnlyFreed(sb, old(disk), disk, {b})
      ensures logged == old(logged) + {sb.BitBlock(b)}
    {
      BitBlockIsMeta(sb, b);
      Mark(b);
      var _ := LogWrite(sb.BitBlock(b));
    }

    /** `if(b) bfree(b)` for the block b of slot s, after the slots done. */
    method FreeSlot(b: nat, ghost f: Fs, ghost n: nat, ghost done: set<Slot>, ghost s: Slot, ghost lg: set<nat>)
      requires Owned(sb, f) && n in f.inodes && SlotsOk(done) && s.Ok() && s !in done && outstanding >= 1
      requires b == Ptr(f, Place(n, s))
      requires OnlyFreed(sb, f.disk, disk, BlocksOf(f, n, done)) && logged == lg + BitBlocks(sb, BlocksOf(f, n, done))
      modifies this`disk, this`logged
      ensures OnlyFreed(sb, f.disk, disk, BlocksOf(f, n, done + {s}))
      ensures logged == lg + BitBlocks(sb, BlocksOf(f, n, done + {s}))
    {
      PtrIs(sb, f, Place(n, s));
      OtherSlot(sb, f, n, done, s);
      assert BlocksOf(f, n, done + {s}) == BlocksOf(f, n, done) + if b != 0 then {b} else {};
      assert BitBlocks(sb, BlocksOf(f, n, done + {s})) == BitBlocks(sb, BlocksOf(f, n, done)) + if b != 0 then {sb.BitBlock(b)} else {};
      if b != 0 {
        BitBlockIsMeta(sb, b);
        Bfree(b);
      }
    }

    /** The first loop of itrunc. */
    method FreeDirect(n: nat)
      requires Owned(sb, Now()) && n in inodes && outstanding >= 1
      modifies this`disk, this`inodes, this`logged
      ensures InodesOk(old(inodes))
      ensures OnlyFreed(sb, old(disk), disk, BlocksOf(old(Now()), n, DirectSlots(NDIRECT)))
      ensures ClearedAddrs(old(inodes), inodes, n, NDIRECT)
      ensures logged == old(logged) + BitBlocks(sb, BlocksOf(old(Now()), n, DirectSlots(NDIRECT)))
    {
      hide Owned, InUse, OnlyFreed, BlocksOf, DirectSlots, InodesOk, BitBlocks;
      ghost var f := Now();
      OwnedFacts(sb, f);
      FreedNothing(sb, f, n);
      var i := 0;
      while i < NDIRECT
        invariant 0 <= i <= NDIRECT
        invariant OnlyFreed(sb, f.disk, disk, BlocksOf(f, n, DirectSlots(i)))
        invariant ClearedAddrs(f.inodes, inodes, n, i)
        invariant logged == old(logged) + BitBlocks(sb, BlocksOf(f, n, DirectSlots(i)))
      {
        DirectSlotsNext(i);
        AtIsEntry(f.disk, f.inodes[n], Direct(i));
        FreeSlot(inodes[n].addrs[i], f, n, DirectSlots(i), Direct(i), old(logged));
        if inodes[n].addrs[i] != 0 {
          inodes := inodes[n := inodes[n].(addrs := inodes[n].addrs[i := 0])];
        }
        i := i + 1;
      }
    }

    /** The second half of itrunc: the entries of the single indirect block,
        then the block itself. */
    method FreeIndirect(n: nat, ghost f: Fs, ghost lg: set<nat>)
      requires Owned(sb, f) && n in f.inodes && ClearedAddrs(f.inodes, inodes, n, NDIRECT) && outstanding >= 1
      requires OnlyFreed(sb, f.disk, disk, BlocksOf(f, n, DirectSlots(NDIRECT)))
      requires logged == lg + BitBlocks(sb, BlocksOf(f, n, DirectSlots(NDIRECT)))
      modifies this`disk, this`inodes, this`logged
      ensures InodesOk(f.inodes)
      ensures OnlyFreed(sb, f.disk, disk, BlocksOf(f, n, TruncSlots()))
      ensures ClearedAddrs(f.inodes, inodes, n, NDIRECT + 1)
      ensures logged == lg + BitBlocks(sb, BlocksOf(f, n, TruncSlots()))
    {
      hide Owned, InUse, OnlyFreed, BlocksOf, DirectSlots, SingleSlots, InodesOk, TruncSlots, BitBlocks;
      OwnedFacts(sb, f);
      AtIsEntry(f.disk, f.inodes[n], Single);
      var x := inodes[n].addrs[NDIRECT];
      if x != 0 {
        PtrIs(sb, f, Place(n, Single));
        FreedKeepsData(sb, f.disk, disk, BlocksOf(f, n, DirectSlots(NDIRECT)), x);
        var a := disk[x];
        SlotSets();
        assert DirectSlots(NDIRECT) + SingleSlots(0) == DirectSlots(NDIRECT);
        var j := 0;
        while j < NINDIRECT
          invariant 0 <= j <= NINDIRECT
          invariant OnlyFreed(sb, f.disk, disk, BlocksOf(f, n, DirectSlots(NDIRECT) + SingleSlots(j)))
          invariant ClearedAddrs(f.inodes, inodes, n, NDIRECT)
          invariant logged == lg + BitBlocks(sb, BlocksOf(f, n, DirectSlots(NDIRECT) + SingleSlots(j)))
        {
          SingleSlotsNext(j);
          AtIsEntry(f.disk, f.inodes[n], InSingle(j));
          FreeSlot(Word(a, j), f, n, DirectSlots(NDIRECT) + SingleSlots(j), InSingle(j), lg);
          j := j + 1;
        }
        FreeSlot(x, f, n, DirectSlots(NDIRECT) + SingleSlots(NINDIRECT), Single, lg);
        inodes := inodes[n := inodes[n].(addrs := inodes[n].addrs[NDIRECT := 0])];
      } else {
        NoIndirect(f, n);
      }
    }

    /** itrunc: free the direct blocks, the single indirect block and what it
        lists, each exactly once. The double indirect tree keeps its blocks. What
        is logged is one block per bitmap block with a bit cleared, and the inode's. */
    method Itrunc(n: nat)
      requires Owned(sb, Now()) && n in inodes && outstanding >= 1
      modifies this`disk, this`inodes, this`dinodes, this`owner, this`logged
      ensures Owned(sb, Now()) && InodesOk(old(inodes))
      ensures Truncated(sb, old(Now()), Now(), n) && dinodes == old(dinodes)[n := inodes[n]]
      ensures logged == old(logged) + BitBlocks(sb, BlocksOf(old(Now()), n, TruncSlots())) + {InodeBlock(sb, n)}
    {
      hide Owned, InUse, OnlyFreed, BlocksOf, DirectSlots, InodesOk, TruncSlots, Truncated, BitBlocks;
      ghost var f := Now();
      FreeDirect(n);
      FreeIndirect(n, f, old(logged));
      ghost var mid := inodes;
      inodes := inodes[n := inodes[n].(size := 0)];
      dinodes := dinodes[n := inodes[n]];
      var _ := LogWrite(InodeBlock(sb, n));
      owner := owner - BlocksOf(f, n, TruncSlots());
      TruncOwned(sb, f, mid, Now(), n);
    }

    /** The end of iput for an inode without links: itrunc, and the inode is free
        for ialloc, which blanks it. With it goes the only way to its double
        indirect tree, whose blocks stay marked in use. */
    method Ifree(n: nat)
      requires Owned(sb, Now()) && TailZero(Now()) && n in inodes && outstanding >= 1
      modifies this`disk, this`inodes, this`dinodes, this`owner, this`logged
      ensures Owned(sb, Now()) && TailZero(Now()) && InodesOk(old(inodes)) && InodesOk(inodes)
      ensures Dropped(sb, old(Now()), Now(), n) && dinodes == old(dinodes) - {n}
      ensures Lost(sb, Now()) == Lost(sb, old(Now())) + DoubleTree(old(Now()), n)
      ensures logged == old(logged) + BitBlocks(sb, BlocksOf(old(Now()), n, TruncSlots())) + {InodeBlock(sb, n)}
    {
      hide Owned, TailZero, BlocksOf, InodesOk, TruncSlots, Truncated, BitBlocks, Dropped, Lost, DoubleTree, OwnedBy;
      ghost var f := Now();
      OwnedFacts(sb, f);
      Itrunc(n);
      ghost var g := Now();
      TruncatedIn(sb, f, g, n);
      inodes := inodes - {n};
      dinodes := dinodes - {n};
      owner := owner - OwnedBy(g, n);
      var _ := LogWrite(InodeBlock(sb, n));
      DropOwned(sb, g, Now(), n);
      DropIs(sb, f, g, Now(), n);
      LostDropped(sb, f, Now(), n);
    }
  }

  /** Data blocks that are marked in use and belong to no inode: nothing can reach
      them, and balloc passes them over. */
  ghost function Lost(sb: Super, f: Fs): (bs: set<nat>)
    requires sb.Ok() && sb.size <= |f.disk|
  {
    set b: nat | b < sb.size && sb.Data(b) && b !in FreeBlocks(sb, f.disk) && b !in f.owner
  }

  /** The double indirect block of inode n and all that is below it. */
  ghost function DoubleTree(f: Fs, n: nat): (bs: set<nat>) {
    set b | b in f.owner && f.owner[b].inum == n && (f.owner[b].slot.Double? || f.owner[b].slot.Middle? || f.owner[b].slot.InDouble?)
  }

  /** Inode n is gone, with what itrunc frees of it. */
  ghost predicate Dropped(sb: Super, f: Fs, g: Fs, n: nat)
    requires sb.Ok() && sb.size <= |f.disk|
  {
    && InodesOk(f.inodes) && n in f.inodes && |g.disk| == |f.disk|
    && g.inodes.Keys == f.inodes.Keys - {n} && (forall k :: k in g.inodes ==> g.inodes[k] == f.inodes[k])
    && g.owner == f.owner - OwnedBy(f, n)
    && FreeBlocks(sb, g.disk) == FreeBlocks(sb, f.disk) + BlocksOf(f, n, TruncSlots())
    && InodesOk(g.inodes)
    && (forall k: nat, pos: nat :: k in g.inodes && pos < MAXBYTES ==> ByteOf(g, k, pos) == ByteOf(f, k, pos))
  }

  lemma DropOwned(sb: Super, f: Fs, g: Fs, n: nat)
    requires Owned(sb, f) && n in f.inodes && g == Fs(f.disk, f.inodes - {n}, f.owner - OwnedBy(f, n))
    ensures Owned(sb, g) && InodesOk(g.inodes)
    ensures forall k: nat, pos: nat :: k in g.inodes && pos < MAXBYTES ==> ByteOf(g, k, pos) == ByteOf(f, k, pos)
  {
    assert InodesOk(g.inodes);
    assert forall p :: PlaceOk(g.inodes, p) ==> PlaceOk(f.inodes, p) && p.inum != n && Ptr(g, p) == Ptr(f, p);
    assert forall k: nat, pos: nat :: k in g.inodes && pos < MAXBYTES ==> ByteOf(g, k, pos) == ByteOf(f, k, pos);
    hide Ptr, InUse, ByteOf;
    forall p | PlaceOk(g.inodes, p) && Ptr(g, p) != 0
      ensures Ptr(g, p) in g.owner && g.owner[Ptr(g, p)] == p
    {
      PtrIs(sb, f, p);
    }
    forall b | b in g.owner
      ensures sb.Data(b) && PlaceOk(g.inodes, g.owner[b]) && Ptr(g, g.owner[b]) == b && InUse(sb, g.disk, b)
    {
      OwnerIs(sb, f, b);
    }
  }

  lemma DropIs(sb: Super, f: Fs, g: Fs, h: Fs, n: nat)
    requires Owned(sb, f) && TailZero(f) && n in f.inodes && InodesOk(f.inodes) && sb.Ok() && sb.size <= |f.disk| && Truncated(sb, f, g, n)
    requires h == Fs(g.disk, g.inodes - {n}, g.owner - OwnedBy(g, n)) && InodesOk(h.inodes)
    requires forall k: nat, pos: nat :: k in h.inodes && pos < MAXBYTES ==> ByteOf(h, k, pos) == ByteOf(g, k, pos)
    ensures Dropped(sb, f, h, n) && TailZero(h)
  {
    BlocksAreData(sb, f, n, TruncSlots());
    hide ByteOf, FreeBlocks, BlocksOf, TruncSlots, InodesOk, Owned;
    assert h.owner.Keys == (f.owner - OwnedBy(f, n)).Keys;
    forall k: nat, pos: nat | k in h.inodes && pos < MAXBYTES
      ensures ByteOf(h, k, pos) == ByteOf(f, k, pos)
    {
      assert ByteOf(h, k, pos) == ByteOf(g, k, pos);
    }
  }

  /** What freeing an inode loses: exactly its double indirect tree. */
  lemma LostDropped(sb: Super, f: Fs, g: Fs, n: nat)
    requires Owned(sb, f) && sb.Ok() && sb.size <= |f.disk| && Dropped(sb, f, g, n)
    ensures Lost(sb, g) == Lost(sb, f) + DoubleTree(f, n)
  {
    BlocksAreData(sb, f, n, TruncSlots());
    forall b | b in OwnedBy(f, n)
      ensures sb.Data(b) && b < sb.size && b !in FreeBlocks(sb, f.disk)
      ensures b in BlocksOf(f, n, TruncSlots()) <==> b !in DoubleTree(f, n)
    {
      OwnerIs(sb, f, b);
      assert f.owner[b] == Place(n, f.owner[b].slot);
      assert f.owner[b].slot in TruncSlots() <==> b !in DoubleTree(f, n);
    }
    hide FreeBlocks, BlocksOf, TruncSlots, InodesOk, Owned, ByteOf, Ptr;
    assert DoubleTree(f, n) <= OwnedBy(f, n);
  }

  /** Reading and writing lose nothing. */
  lemma LostFilled(sb: Super, f: Fs, g: Fs, n: nat, ss: set<Slot>)
    requires Filled(sb, f, g, n, ss)
    ensures sb.Ok() && sb.size <= |f.disk| && sb.size <= |g.disk| && Lost(sb, g) == Lost(sb, f)
  {
    FilledOk(sb, f, g, n, ss);
    var a, x, b, y := FreeBlocks(sb, f.disk), f.owner.Keys, FreeBlocks(sb, g.disk), g.owner.Keys;
    assert HandedOut(a, x, b, y);
    hide Filled, FreeBlocks;
    forall e: nat
      ensures e !in b && e !in y <==> e !in a && e !in x
    {
      assert e in y - x <==> e in a - b;
    }
  }

  /** itrunc itself keeps the double indirect tree with its inode. */
  lemma LostTruncated(sb: Super, f: Fs, g: Fs, n: nat)
    requires Owned(sb, f) && n in f.inodes && sb.Ok() && sb.size <= |f.disk| && Truncated(sb, f, g, n)
    ensures Lost(sb, g) == Lost(sb, f)
  {
    BlocksAreData(sb, f, n, TruncSlots());
    hide FreeBlocks, BlocksOf, TruncSlots, Owned;
  }

  /** ialloc took inode n. */
  ghost predicate Made(f: Fs, g: Fs, n: nat) {
    n !in f.inodes && g == f.(inodes := f.inodes[n := BlankInode()])
  }

  /** What the operations on files and inodes do, one at a time. */
  ghost predicate FsStep(sb: Super, f: Fs, g: Fs) {
    && Owned(sb, f) && Owned(sb, g)
    && ((exists n, ss :: Filled(sb, f, g, n, ss)) || (exists n :: Truncated(sb, f, g, n)) || (exists n :: Made(f, g, n)) || (exists n :: Dropped(sb, f, g, n)))
  }

  ghost predicate FsRun(sb: Super, fs: seq<Fs>) {
    fs != [] && Owned(sb, fs[0]) && forall i :: 0 < i < |fs| ==> FsStep(sb, fs[i - 1], fs[i])
  }

  lemma LostStep(sb: Super, f: Fs, g: Fs)
    requires FsStep(sb, f, g)
    ensures sb.Ok() && sb.size <= |f.disk| && sb.size <= |g.disk| && Lost(sb, f) <= Lost(sb, g)
  {
    OwnedFacts(sb, f);
    OwnedFacts(sb, g);
    hide Owned, Filled, Truncated, Dropped, Lost;
    if n, ss :| Filled(sb, f, g, n, ss) {
      LostFilled(sb, f, g, n, ss);
    } else if n :| Truncated(sb, f, g, n) {
      TruncatedIn(sb, f, g, n);
      LostTruncated(sb, f, g, n);
    } else if n :| Dropped(sb, f, g, n) {
      LostDropped(sb, f, g, n);
    } else {
      var n :| Made(f, g, n);
      LostMade(sb, f, g, n);
    }
  }

  lemma TruncatedIn(sb: Super, f: Fs, g: Fs, n: nat)
    requires sb.Ok() && sb.size <= |f.disk| && Truncated(sb, f, g, n)
    ensures n in f.inodes && n in g.inodes
  {
  }

  lemma LostMade(sb: Super, f: Fs, g: Fs, n: nat)
    requires sb.Ok() && sb.size <= |f.disk| && Made(f, g, n)
    ensures Lost(sb, g) == Lost(sb, f)
  {
  }

  /** A lost block is lost for good: whatever files are made, read, written,
      truncated and freed from then on, it is never free and never in a file. */
  lemma {:induction false} LostForGood(sb: Super, fs: seq<Fs>)
    requires FsRun(sb, fs)
    ensures var g := fs[|fs| - 1];
            && Owned(sb, g) && sb.Ok() && sb.size <= |fs[0].disk| && sb.size <= |g.disk| && Lost(sb, fs[0]) <= Lost(sb, g)
            && forall b :: b in Lost(sb, fs[0]) ==> b !in FreeBlocks(sb, g.disk) && b !in g.owner
  {
    OwnedFacts(sb, fs[0]);
    hide Owned, FsStep, FreeBlocks;
    var k := |fs| - 1;
    if k > 0 {
      var init := fs[..k];
      forall i | 0 < i < |init|
        ensures FsStep(sb, init[i - 1], init[i])
      {
        assert FsStep(sb, fs[i - 1], fs[i]);
      }
      LostForGood(sb, init);
      assert FsStep(sb, fs[k - 1], fs[k]);
      StepOwned(sb, fs[k - 1], fs[k]);
      LostStep(sb, fs[k - 1], fs[k]);
    }
  }

  lemma StepOwned(sb: Super, f: Fs, g: Fs)
    requires FsStep(sb, f, g)
    ensures Owned(sb, g)
  {
  }

  /** What is left of inode n after itrunc. */
  ghost function CutInode(ino: Inode): (r: Inode)
    requires |ino.addrs| == NDIRECT + 2
  {
    Inode(0, seq(NDIRECT + 2, i requires 0 <= i < NDIRECT + 2 => if i <= NDIRECT then 0 else ino.addrs[i]))
  }

  /** The outcome of itrunc: what became free, and that nothing else moved. */
  ghost predicate Truncated(sb: Super, f: Fs, g: Fs, n: nat)
    requires sb.Ok() && sb.size <= |f.disk|
  {
    && InodesOk(f.inodes) && n in f.inodes
    && g.inodes == f.inodes[n := CutInode(f.inodes[n])]
    && g.owner == f.owner - BlocksOf(f, n, TruncSlots())
    && |g.disk| == |f.disk|
    && FreeBlocks(sb, g.disk) == FreeBlocks(sb, f.disk) + BlocksOf(f, n, TruncSlots())
    && FreeBlocks(sb, f.disk) !! BlocksOf(f, n, TruncSlots())
    && InodesOk(g.inodes)
    && (forall p :: PlaceOk(f.inodes, p) ==>
          Ptr(g, p) == if p.inum == n && p.slot in TruncSlots() then 0 else Ptr(f, p))
    && (forall k: nat, pos: nat :: k in f.inodes && k != n && pos < MAXBYTES ==> ByteOf(g, k, pos) == ByteOf(f, k, pos))
  }

  lemma TruncPointers(sb: Super, f: Fs, g: Fs, n: nat, p: Place)
    requires Owned(sb, f) && n in f.inodes && PlaceOk(f.inodes, p)
    requires OnlyFreed(sb, f.disk, g.disk, BlocksOf(f, n, TruncSlots()))
    requires g.inodes == f.inodes[n := CutInode(f.inodes[n])]
    ensures InodesOk(g.inodes)
    ensures Ptr(g, p) == if p.inum == n && p.slot in TruncSlots() then 0 else Ptr(f, p)
  {
    assert SameIndexBlocks(f, g.disk) by {
      forall b | b in f.owner && b < |f.disk| && !f.owner[b].slot.Leaf()
        ensures g.disk[b] == f.disk[b]
      {
        OwnerIs(sb, f, b);
      }
    }
    IndexFrame(sb, f, g.disk, p);
    assert p.slot in TruncSlots() <==> p.slot.Direct? || p.slot.Single? || p.slot.InSingle?;
  }

  lemma TruncOwned(sb: Super, f: Fs, mid: map<nat, Inode>, g: Fs, n: nat)
    requires Owned(sb, f) && n in f.inodes && InodesOk(f.inodes)
    requires OnlyFreed(sb, f.disk, g.disk, BlocksOf(f, n, TruncSlots()))
    requires n in g.inodes && g.inodes[n].size == 0
    requires ClearedAddrs(f.inodes, mid, n, NDIRECT + 1) && g.inodes == mid[n := mid[n].(size := 0)]
    requires g.owner == f.owner - BlocksOf(f, n, TruncSlots())
    ensures Owned(sb, g) && sb.Ok() && sb.size <= |f.disk| && Truncated(sb, f, g, n)
  {
    assert g.inodes[n].addrs == CutInode(f.inodes[n]).addrs;
    assert g.inodes == f.inodes[n := CutInode(f.inodes[n])];
    TruncAll(sb, f, g, n);
    TruncOwners(sb, f, g, n);
    TruncFree(sb, f, g, n);
  }

  lemma TruncAll(sb: Super, f: Fs, g: Fs, n: nat)
    requires Owned(sb, f) && n in f.inodes
    requires OnlyFreed(sb, f.disk, g.disk, BlocksOf(f, n, TruncSlots()))
    requires g.inodes == f.inodes[n := CutInode(f.inodes[n])]
    ensures InodesOk(g.inodes)
    ensures forall p :: PlaceOk(f.inodes, p) ==>
              Ptr(g, p) == if p.inum == n && p.slot in TruncSlots() then 0 else Ptr(f, p)
    ensures forall k: nat, pos: nat :: k in f.inodes && k != n && pos < MAXBYTES ==> ByteOf(g, k, pos) == ByteOf(f, k, pos)
  {
    TruncPointers(sb, f, g, n, Place(n, Single));
    forall p | PlaceOk(f.inodes, p)
      ensures Ptr(g, p) == if p.inum == n && p.slot in TruncSlots() then 0 else Ptr(f, p)
    {
      TruncPointers(sb, f, g, n, p);
    }
    forall k: nat, pos: nat | k in f.inodes && k != n && pos < MAXBYTES
      ensures ByteOf(g, k, pos) == ByteOf(f, k, pos)
    {
      var q := Place(k, SlotOf(pos / BSIZE));
      TruncPointers(sb, f, g, n, q);
      PtrIs(sb, f, q);
    }
  }

  lemma TruncOwners(sb: Super, f: Fs, g: Fs, n: nat)
    requires Owned(sb, f) && n in f.inodes && InodesOk(g.inodes) && g.inodes.Keys == f.inodes.Keys
    requires OnlyFreed(sb, f.disk, g.disk, BlocksOf(f, n, TruncSlots()))
    requires g.owner == f.owner - BlocksOf(f, n, TruncSlots())
    requires forall p :: PlaceOk(f.inodes, p) ==>
               Ptr(g, p) == if p.inum == n && p.slot in TruncSlots() then 0 else Ptr(f, p)
    ensures Owned(sb, g)
  {
    hide Ptr, InUse, TruncSlots;
    var bs := BlocksOf(f, n, TruncSlots());
    forall p | PlaceOk(g.inodes, p) && Ptr(g, p) != 0
      ensures Ptr(g, p) in g.owner && g.owner[Ptr(g, p)] == p
    {
      PtrIs(sb, f, p);
      if Ptr(f, p) in bs {
        var t :| t in TruncSlots() && Ptr(f, Place(n, t)) != 0 && Ptr(f, Place(n, t)) == Ptr(f, p);
        OneOwner(sb, f, p, Place(n, t));
      }
    }
    forall b | b in g.owner
      ensures sb.Data(b) && PlaceOk(g.inodes, g.owner[b]) && Ptr(g, g.owner[b]) == b && InUse(sb, g.disk, b)
    {
      OwnerIs(sb, f, b);
      assert f.owner[b] == Place(f.owner[b].inum, f.owner[b].slot);
    }
    forall b: nat | b < sb.datastart
      ensures InUse(sb, g.disk, b)
    {
      BlocksAreData(sb, f, n, TruncSlots());
    }
  }

  lemma BlocksAreData(sb: Super, f: Fs, n: nat, ss: set<Slot>)
    requires Owned(sb, f) && n in f.inodes && SlotsOk(ss)
    ensures InodesOk(f.inodes) && sb.Ok() && sb.size <= |f.disk|
    ensures forall b :: b in BlocksOf(f, n, ss) ==> sb.Data(b) && b in f.owner && f.owner[b].inum == n && f.owner[b].slot in ss && InUse(sb, f.disk, b)
  {
    hide Ptr, InUse;
    forall b | b in BlocksOf(f, n, ss)
      ensures sb.Data(b) && b in f.owner && f.owner[b].inum == n && f.owner[b].slot in ss && InUse(sb, f.disk, b)
    {
      var s :| s in ss && Ptr(f, Place(n, s)) != 0 && Ptr(f, Place(n, s)) == b;
      PtrIs(sb, f, Place(n, s));
    }
  }

  lemma TruncFree(sb: Super, f: Fs, g: Fs, n: nat)
    requires Owned(sb, f) && n in f.inodes
    requires OnlyFreed(sb, f.disk, g.disk, BlocksOf(f, n, TruncSlots()))
    ensures FreeBlocks(sb, g.disk) == FreeBlocks(sb, f.disk) + BlocksOf(f, n, TruncSlots())
    ensures FreeBlocks(sb, f.disk) !! BlocksOf(f, n, TruncSlots())
  {
    BlocksAreData(sb, f, n, TruncSlots());
    hide InUse, BlocksOf, TruncSlots, Owned;
  }

  /** All blocks of inode n. */
  ghost function OwnedBy(f: Fs, n: nat): (bs: set<nat>) {
    set b | b in f.owner && f.owner[b].inum == n
  }

  /** itrunc gives back every block of the inode if and only if the inode has no
      double indirect block; otherwise that whole tree is never freed. */
  lemma TruncExact(sb: Super, f: Fs, g: Fs, n: nat)
    requires Owned(sb, f) && n in f.inodes && Truncated(sb, f, g, n)
    ensures FreeBlocks(sb, g.disk) == FreeBlocks(sb, f.disk) + OwnedBy(f, n) <==> Ptr(f, Place(n, Double)) == 0
    ensures OwnedBy(f, n) - BlocksOf(f, n, TruncSlots())
            == set b | b in OwnedBy(f, n) && (f.owner[b].slot.Double? || f.owner[b].slot.Middle? || f.owner[b].slot.InDouble?)
  {
    BlocksAreData(sb, f, n, TruncSlots());
    PtrIs(sb, f, Place(n, Double));
    forall b | b in OwnedBy(f, n)
      ensures b !in FreeBlocks(sb, f.disk)
      ensures b in BlocksOf(f, n, TruncSlots()) <==> f.owner[b].slot in TruncSlots()
      ensures f.owner[b].slot !in TruncSlots() ==> Ptr(f, Place(n, Double)) != 0
    {
      OwnerIs(sb, f, b);
      assert f.owner[b] == Place(n, f.owner[b].slot);
    }
  }

  /** What itrunc frees: the blocks named in the first NDIRECT + 1 addresses of the
      inode, and those in the words of the single indirect block. */
  lemma FreedAre(f: Fs, n: nat, b: nat)
    requires InodesOk(f.inodes) && n in f.inodes
    ensures b in BlocksOf(f, n, TruncSlots()) <==>
              && b != 0
              && ((exists i :: 0 <= i <= NDIRECT && f.inodes[n].addrs[i] == b)
                  || var x := f.inodes[n].addrs[NDIRECT]; 0 < x < |f.disk| && exists j :: 0 <= j < NINDIRECT && Word(f.disk[x], j) == b)
  {
    var x := f.inodes[n].addrs[NDIRECT];
    if b in BlocksOf(f, n, TruncSlots()) {
      var s :| s in TruncSlots() && Ptr(f, Place(n, s)) != 0 && Ptr(f, Place(n, s)) == b;
      match s
      case Direct(i) => assert f.inodes[n].addrs[i] == b;
      case Single => assert f.inodes[n].addrs[NDIRECT] == b;
      case InSingle(j) => assert Word(f.disk[x], j) == b;
    }
    if b != 0 {
      if i :| 0 <= i <= NDIRECT && f.inodes[n].addrs[i] == b {
        var s := if i < NDIRECT then Direct(i) else Single;
        assert s in TruncSlots() && Ptr(f, Place(n, s)) == b;
      } else if 0 < x < |f.disk| {
        if j :| 0 <= j < NINDIRECT && Word(f.disk[x], j) == b {
          assert InSingle(j) in TruncSlots() && Ptr(f, Place(n, InSingle(j))) == b;
        }
      }
    }
  }

  /** The slots that itrunc frees: all but the double indirect tree. */
  ghost function TruncSlots(): (ss: set<Slot>)
    ensures SlotsOk(ss)
  {
    DirectSlots(NDIRECT) + SingleSlots(NINDIRECT) + {Single}
  }

  lemma SlotSets()
    ensures SingleSlots(0) == {}
    ensures TruncSlots() == DirectSlots(NDIRECT) + SingleSlots(NINDIRECT) + {Single}
    ensures Single !in DirectSlots(NDIRECT) + SingleSlots(NINDIRECT)
  {
  }

  lemma DirectSlotsNext(i: nat)
    requires i < NDIRECT
    ensures DirectSlots(i + 1) == DirectSlots(i) + {Direct(i)} && Direct(i) !in DirectSlots(i)
  {
  }

  lemma SingleSlotsNext(j: nat)
    requires j < NINDIRECT
    ensures DirectSlots(NDIRECT) + SingleSlots(j + 1) == DirectSlots(NDIRECT) + SingleSlots(j) + {InSingle(j)}
    ensures InSingle(j) !in DirectSlots(NDIRECT) + SingleSlots(j)
  {
  }

  /** Without a single indirect block there is nothing below it. */
  lemma NoIndirect(f: Fs, n: nat)
    requires InodesOk(f.inodes) && n in f.inodes && Ptr(f, Place(n, Single)) == 0
    ensures BlocksOf(f, n, TruncSlots()) == BlocksOf(f, n, DirectSlots(NDIRECT))
  {
    forall s | s in TruncSlots() && s !in DirectSlots(NDIRECT)
      ensures Ptr(f, Place(n, s)) == 0
    {
    }
  }

  lemma FreedNothing(sb: Super, f: Fs, n: nat)
    requires Owned(sb, f) && n in f.inodes
    ensures InodesOk(f.inodes) && OnlyFreed(sb, f.disk, f.disk, BlocksOf(f, n, DirectSlots(0)))
    ensures BitBlocks(sb, BlocksOf(f, n, DirectSlots(0))) == {}
  {
    assert DirectSlots(0) == {};
    assert BlocksOf(f, n, {}) == {};
  }

  lemma FreedKeepsData(sb: Super, d: seq<Block>, e: seq<Block>, bs: set<nat>, x: nat)
    requires OnlyFreed(sb, d, e, bs) && sb.Data(x)
    ensures x < |d| == |e| && e[x] == d[x]
  {
  }

  /** The block of a slot that is still to be freed is still in use. */
  lemma OtherSlot(sb: Super, f: Fs, n: nat, done: set<Slot>, s: Slot)
    requires Owned(sb, f) && n in f.inodes && SlotsOk(done) && s.Ok() && s !in done
    ensures InodesOk(f.inodes)
    ensures var b := Ptr(f, Place(n, s)); b != 0 ==> b < sb.size <= |f.disk| && InUse(sb, f.disk, b) && b !in BlocksOf(f, n, done)
  {
    var b := Ptr(f, Place(n, s));
    PtrIs(sb, f, Place(n, s));
    if b != 0 && b in BlocksOf(f, n, done) {
      var t :| t in done && Ptr(f, Place(n, t)) != 0 && Ptr(f, Place(n, t)) == b;
      OneOwner(sb, f, Place(n, s), Place(n, t));
    }
  }

  /** The disk e is d with the blocks bs marked free; nothing else changed. */
  ghost predicate OnlyFreed(sb: Super, d: seq<Block>, e: seq<Block>, bs: set<nat>) {
    && sb.Ok() && sb.size <= |d| == |e|
    && (forall c: nat :: c < sb.size ==> (InUse(sb, e, c) <==> InUse(sb, d, c) && c !in bs))
    && (forall x: nat :: x < |d| && !BitmapBlock(sb, x) ==> e[x] == d[x])
  }

  /** The blocks that the slots ss of inode n point at. */
  ghost function BlocksOf(f: Fs, n: nat, ss: set<Slot>): (bs: set<nat>)
    requires InodesOk(f.inodes) && n in f.inodes && SlotsOk(ss)
  {
    set s | s in ss && Ptr(f, Place(n, s)) != 0 :: Ptr(f, Place(n, s))
  }

  ghost function DirectSlots(k: nat): (ss: set<Slot>)
    requires k <= NDIRECT
    ensures SlotsOk(ss)
  {
    set i: nat | i < k :: Direct(i)
  }

  ghost function SingleSlots(k: nat): (ss: set<Slot>)
    requires k <= NINDIRECT
    ensures SlotsOk(ss)
  {
    set i: nat | i < k :: InSingle(i)
  }

  /** The first k addresses of inode n are zero, nothing else changed. */
  ghost predicate ClearedAddrs(a: map<nat, Inode>, b: map<nat, Inode>, n: nat, k: nat) {
    && n in a && n in b && |a[n].addrs| == NDIRECT + 2 && k <= NDIRECT + 2
    && b == a[n := b[n]] && b[n].size == a[n].size && |b[n].addrs| == NDIRECT + 2
    && forall i :: 0 <= i < NDIRECT + 2 ==> b[n].addrs[i] == if i < k then 0 else a[n].addrs[i]
  }

  /** The block that holds inode n. */
  function InodeBlock(sb: Super, n: nat): (b: nat) {
    n / INODES_PER_BLOCK + sb.inodestart
  }

  const INODES_PER_BLOCK := 8

  /** Inodes of 64 bytes lie one behind the other from the first inode block on. */
  lemma InodeLayout(sb: Super, n: nat)
    ensures BSIZE * (InodeBlock(sb, n) - sb.inodestart) <= 64 * n < BSIZE * (InodeBlock(sb, n) - sb.inodestart) + BSIZE
    ensures 64 * n + 64 <= BSIZE * (InodeBlock(sb, n) - sb.inodestart) + BSIZE
  {
    assert n == 8 * (n / 8) + n % 8;
  }

  /** File n grew to end if it was shorter; no other size changed. */
  ghost predicate Resized(f: Fs, g: Fs, n: nat, end: nat) {
    && f.inodes.Keys == g.inodes.Keys
    && forall k :: k in f.inodes ==>
         g.inodes[k].size == if k == n && end > f.inodes[k].size then end else f.inodes[k].size
  }

  lemma ResizedNot(f: Fs, g: Fs, n: nat, end: nat)
    requires SameSizes(f, g) && n in f.inodes
    ensures end <= f.inodes[n].size ==> Resized(f, g, n, end)
    ensures n in g.inodes && g.inodes[n].size == f.inodes[n].size
  {
  }

  lemma FilledParts(sb: Super, f: Fs, g: Fs, n: nat, ss: set<Slot>)
    requires Filled(sb, f, g, n, ss)
    ensures Owned(sb, g) && n in g.inodes && InodesOk(g.inodes)
  {
  }

  lemma LoggedOneMore(sb: Super, was: set<nat>, now: set<nat>, f: Fs, g: Fs, d: seq<Block>, n: nat, ss: set<Slot>, b: nat)
    requires LoggedOnly(sb, was, now, f, g, n, ss) && b in g.owner && g.owner[b].inum == n && g.owner[b].slot in ss
    requires |d| == |g.disk| && FreeBlocks(sb, d) == FreeBlocks(sb, g.disk)
    ensures LoggedOnly(sb, was, now + {b}, f, g.(disk := d), n, ss)
  {
    assert Taken(sb, f, g.(disk := d)) == Taken(sb, f, g);
  }

  lemma LoggedWider(sb: Super, was: set<nat>, now: set<nat>, f: Fs, g: Fs, n: nat, ss: set<Slot>, b: nat)
    requires LoggedOnly(sb, was, now, f, g, n, ss)
    ensures LoggedOnly(sb, was + {b}, now + {b}, f, g, n, ss)
    ensures sb.Ok() && sb.size <= |f.disk| && sb.size <= |g.disk| && Taken(sb, f, g) + BitBlocks(sb, Taken(sb, f, g)) <= now
  {
  }

  lemma LoggedSame(sb: Super, was: set<nat>, now: set<nat>, f: Fs, g: Fs, h: Fs, n: nat, ss: set<Slot>)
    requires LoggedOnly(sb, was, now, f, g, n, ss) && h.owner == g.owner && h.disk == g.disk
    ensures LoggedOnly(sb, was, now, f, h, n, ss)
  {
  }

  /** Nothing allocated, nothing logged. */
  lemma LoggedNone(sb: Super, was: set<nat>, f: Fs, n: nat, ss: set<Slot>)
    requires sb.Ok() && sb.size <= |f.disk|
    ensures LoggedOnly(sb, was, was, f, f, n, ss)
  {
    assert Taken(sb, f, f) == {};
  }

  /** Block b, fresh from balloc, put into the empty word p of its index block. */
  lemma WordFilled(sb: Super, f: Fs, e: seq<Block>, g: Fs, p: Place, x: nat, i: nat, b: uint, lg: set<nat>, lg1: set<nat>)
    requires lg1 == lg + {sb.BitBlock(b), b} + {x}
    requires i < NINDIRECT && x < |e| && g == Fs(e[x := SetWord(e[x], i, b)], f.inodes, f.owner[b := p])
    requires InodesOk(f.inodes) && PlaceOk(f.inodes, p)
    requires !InInode(p.slot) && Parent(p.slot).Ok() && i == IndexIn(p.slot)
    requires Ptr(f, p) == 0 && x == Ptr(f, Place(p.inum, Parent(p.slot))) != 0
    requires Owned(sb, f) && Allocated(sb, f.disk, e, b)
    ensures Owned(sb, g) && Extended(sb, f, g, p.inum, {p.slot})
    ensures LoggedOnly(sb, lg, lg1, f, g, p.inum, {p.slot, Parent(p.slot)})
  {
    hide Extended, Filled, FreeBlocks, InUse, Empty, Allocated, LoggedOnly, Taken;
    var q := Place(p.inum, Parent(p.slot));
    PtrIs(sb, f, q);
    FillSlot(sb, f, e, p, b);
    AllocatedFresh(sb, f, e, b);
    assert g == SetPtr(f.(disk := e), p, b);
    ExtendedIs(sb, f, g, p.inum, {p.slot});
    TakenOne(sb, f, e, g.disk, b);
    LoggedOne(sb, lg, f, g, p.inum, {p.slot, Parent(p.slot)}, b, {x});
  }

  lemma TakenOne(sb: Super, f: Fs, e: seq<Block>, d: seq<Block>, b: nat)
    requires Owned(sb, f) && Allocated(sb, f.disk, e, b) && |d| == |e|
    requires forall x: nat :: x < sb.datastart && x < |e| ==> d[x] == e[x]
    ensures sb.Ok() && sb.size <= |f.disk| && sb.size <= |d|
    ensures forall g: Fs :: g.disk == d ==> Taken(sb, f, g) == {b}
    ensures sb.Data(b) && b !in f.owner
  {
    AllocatedFresh(sb, f, e, b);
    SameBits(sb, e, d);
    assert FreeBlocks(sb, d) == FreeBlocks(sb, e);
    assert b in FreeBlocks(sb, f.disk);
  }

  /** One block b allocated for a slot, and perhaps the index block x noted. */
  lemma LoggedOne(sb: Super, was: set<nat>, f: Fs, g: Fs, n: nat, ss: set<Slot>, b: nat, xs: set<nat>)
    requires sb.Ok() && sb.size <= |f.disk| && sb.size <= |g.disk| && Taken(sb, f, g) == {b}
    requires forall x :: x in xs + {b} ==> x in g.owner && g.owner[x].inum == n && g.owner[x].slot in ss
    ensures LoggedOnly(sb, was, was + {sb.BitBlock(b), b} + xs, f, g, n, ss)
  {
    assert BitBlocks(sb, {b}) == {sb.BitBlock(b)};
  }

  /** Block k mapped on the way from f to g, and piece put into it. */
  lemma BlockWritten(sb: Super, f: Fs, g: Fs, was: set<nat>, now: set<nat>, n: nat, k: nat, addr: nat, o: nat, piece: seq<byte>)
    requires InodesOk(g.inodes) && n in g.inodes && k < MAXFILE && addr == Ptr(g, Place(n, SlotOf(k))) < |g.disk|
    requires o + |piece| <= BSIZE && LoggedOnly(sb, was, now, f, g, n, Path(k)) && Extended(sb, f, g, n, Path(k))
    ensures var h := g.(disk := g.disk[addr := Patch(g.disk[addr], o, piece)]);
            && SameSizes(f, h) && Spliced(f, h, n, BSIZE * k + o, piece)
            && LoggedOnly(sb, was, now + {addr}, f, h, n, Path(k)) && Filled(sb, f, h, n, Path(k))
  {
    hide Extended, Filled, LoggedOnly, Owned, SameSizes, SameBytes, Spliced;
    ExtendedIs(sb, f, g, n, Path(k));
    ExtendedParts(sb, f, g, n, Path(k));
    PatchSplices(sb, g, n, k, o, piece);
    PtrIs(sb, g, Place(n, SlotOf(k)));
    var blk := Patch(g.disk[addr], o, piece);
    var h := g.(disk := g.disk[addr := blk]);
    FilledThenWritten(sb, f, g, n, Path(k), k, blk);
    WriteLeafOwned(sb, g, n, k, blk);
    LoggedOneMore(sb, was, now, f, g, h.disk, n, Path(k), addr);
    SplicedAfter(f, g, h, n, BSIZE * k + o, piece);
    SameSizesDisk(f, g, h);
  }

  lemma SplicedNothing(f: Fs, n: nat, off: nat)
    requires InodesOk(f.inodes)
    ensures Spliced(f, f, n, off, [])
  {
  }

  lemma SplicedAfter(f: Fs, g: Fs, h: Fs, n: nat, off: nat, src: seq<byte>)
    requires SameBytes(f, g) && Spliced(g, h, n, off, src)
    ensures Spliced(f, h, n, off, src)
  {
    forall k: nat, pos: nat | k in f.inodes && pos < MAXBYTES
      ensures ByteOf(h, k, pos) == if k == n && off <= pos < off + |src| then src[pos - off] else ByteOf(f, k, pos)
    {
      assert ByteOf(g, k, pos) == ByteOf(f, k, pos);
    }
  }

  lemma SplicedBoth(f: Fs, g: Fs, h: Fs, n: nat, off: nat, a: seq<byte>, b: seq<byte>)
    requires Spliced(f, g, n, off, a) && Spliced(g, h, n, off + |a|, b)
    ensures Spliced(f, h, n, off, a + b)
  {
    hide ByteOf;
    forall k: nat, pos: nat | k in f.inodes && pos < MAXBYTES
      ensures ByteOf(h, k, pos) == if k == n && off <= pos < off + |a + b| then (a + b)[pos - off] else ByteOf(f, k, pos)
    {
      assert ByteOf(g, k, pos) == if k == n && off <= pos < off + |a| then a[pos - off] else ByteOf(f, k, pos);
    }
  }

  lemma SameSizesDisk(f: Fs, g: Fs, h: Fs)
    requires SameSizes(f, g) && h.inodes == g.inodes
    ensures SameSizes(f, h)
  {
  }

  /** Setting the size of an inode touches no block and no byte. */
  lemma SizeOnly(sb: Super, f: Fs, g: Fs, n: nat, ss: set<Slot>, off: nat, src: seq<byte>)
    requires Filled(sb, f, g, n, ss) && SameSizes(f, g) && Spliced(f, g, n, off, src) && n in g.inodes
    requires off + |src| > f.inodes[n].size
    ensures var h := SetSize(g, n, off + |src|);
            Filled(sb, f, h, n, ss) && Spliced(f, h, n, off, src) && Resized(f, h, n, off + |src|)
  {
    hide Owned, Filled, Spliced;
    var h := SetSize(g, n, off + |src|);
    FilledParts(sb, f, g, n, ss);
    SizeSet(sb, g, n, off + |src|);
    FilledBoth(sb, f, g, h, n, ss, {});
    assert ss + {} == ss;
    SplicedBoth(f, g, h, n, off, src, []);
    assert src + [] == src;
  }

  lemma LoopDone(sb: Super, f: Fs, g: Fs, lg: set<nat>, lg1: set<nat>, n: nat, lo: nat, hi: nat)
    requires LoopAt(sb, f, g, lg, lg1, n, lo, hi)
    ensures Filled(sb, f, g, n, Paths(lo, hi)) && SameSizes(f, g) && LoggedOnly(sb, lg, lg1, f, g, n, Paths(lo, hi))
  {
  }

  /** The state of a loop that has extended the file along blocks lo .. k - 1. */
  ghost predicate LoopAt(sb: Super, f: Fs, g: Fs, lg: set<nat>, lg1: set<nat>, n: nat, lo: nat, k: nat) {
    && lo <= k <= MAXFILE
    && Filled(sb, f, g, n, Paths(lo, k)) && SameSizes(f, g) && LoggedOnly(sb, lg, lg1, f, g, n, Paths(lo, k))
  }

  /** Blocks k .. hi - 1 of the file can all be mapped. */
  ghost predicate Ready(sb: Super, g: Fs, n: nat, k: nat, hi: nat, outstanding: nat) {
    && Owned(sb, g) && n in g.inodes && hi <= MAXFILE
    && !Stuck(sb, g, n, Paths(k, hi), outstanding)
  }

  lemma ReadyStart(sb: Super, f: Fs, n: nat, k: nat, hi: nat, outstanding: nat)
    requires Owned(sb, f) && n in f.inodes && hi <= MAXFILE && outstanding >= 1
    requires |Empty(f, n, Paths(k, hi))| <= |FreeBlocks(sb, f.disk)|
    ensures Ready(sb, f, n, k, hi, outstanding)
  {
  }

  lemma LoopStart(sb: Super, f: Fs, lg: set<nat>, n: nat, off: nat, len: nat)
    requires Owned(sb, f) && n in f.inodes && off + len <= MAXBYTES
    ensures InodesOk(f.inodes) && off / BSIZE <= EndBlock(off, len)
    ensures LoopAt(sb, f, f, lg, lg, n, off / BSIZE, off / BSIZE)
    ensures if len == 0 then off / BSIZE == EndBlock(off, len) else off / BSIZE == ChunkAt(off, len).k
  {
    FilledNothing(sb, f, n, {});
  }

  lemma LoopReady(sb: Super, f: Fs, g: Fs, lg: set<nat>, lg1: set<nat>, n: nat, lo: nat, k: nat)
    requires LoopAt(sb, f, g, lg, lg1, n, lo, k)
    ensures Owned(sb, g) && n in g.inodes && InodesOk(g.inodes) && sb.Ok() && sb.size <= |g.disk|
    ensures n in f.inodes && InodesOk(f.inodes) && lo <= k <= MAXFILE
  {
  }

  lemma LoopStep(sb: Super, f: Fs, g: Fs, h: Fs, lg: set<nat>, lg1: set<nat>, lg2: set<nat>, n: nat, lo: nat, k: nat)
    requires LoopAt(sb, f, g, lg, lg1, n, lo, k) && k < MAXFILE
    requires Filled(sb, g, h, n, Path(k)) && SameSizes(g, h) && LoggedOnly(sb, lg1, lg2, g, h, n, Path(k))
    ensures LoopAt(sb, f, h, lg, lg2, n, lo, k + 1)
  {
    BmapStep(sb, f, g, h, lg, lg1, lg2, n, lo, k);
  }

  /** The loop of readi before block k. A read over mapped blocks changes nothing,
      and with nothing outstanding there is no other. */
  ghost predicate Reading(sb: Super, f: Fs, g: Fs, lg: set<nat>, lg1: set<nat>, n: nat, lo: nat, k: nat, outstanding: nat) {
    && LoopAt(sb, f, g, lg, lg1, n, lo, k) && SameBytes(f, g)
    && InodesOk(f.inodes) && n in f.inodes
    && (Empty(f, n, Paths(lo, k)) == {} ==> g == f && lg1 == lg)
    && (outstanding < 1 ==> Empty(f, n, Paths(lo, k)) == {})
  }

  lemma ReadReady(sb: Super, f: Fs, g: Fs, lg: set<nat>, lg1: set<nat>, n: nat, lo: nat, k: nat, outstanding: nat)
    requires Reading(sb, f, g, lg, lg1, n, lo, k, outstanding)
    ensures Owned(sb, g) && n in g.inodes && SameBytes(f, g) && InodesOk(g.inodes) && sb.Ok() && sb.size <= |g.disk| && sb.size <= |f.disk|
    ensures k < MAXFILE ==> (Stuck(sb, f, n, Paths(lo, k + 1), outstanding) <==> Stuck(sb, g, n, Path(k), outstanding))
  {
    LoopReady(sb, f, g, lg, lg1, n, lo, k);
    OwnedFacts(sb, f);
    if k < MAXFILE {
      PathsAppend(lo, k);
      hide Owned, Filled, Paths, Path, Stuck;
      StuckThen(sb, f, g, n, Paths(lo, k), Path(k), outstanding);
    }
  }

  lemma ReadOn(sb: Super, f: Fs, g: Fs, h: Fs, lg: set<nat>, lg1: set<nat>, lg2: set<nat>, n: nat, lo: nat, k: nat, outstanding: nat)
    requires Reading(sb, f, g, lg, lg1, n, lo, k, outstanding) && k < MAXFILE
    requires Extended(sb, g, h, n, Path(k)) && LoggedOnly(sb, lg1, lg2, g, h, n, Path(k))
    requires InodesOk(g.inodes) && n in g.inodes && sb.Ok() && sb.size <= |g.disk| && !Stuck(sb, g, n, Path(k), outstanding)
    requires Empty(g, n, Path(k)) == {} ==> h == g && lg2 == lg1
    ensures Reading(sb, f, h, lg, lg2, n, lo, k + 1, outstanding)
  {
    ExtendedParts(sb, g, h, n, Path(k));
    SameBytesBoth(f, g, h);
    PathsAppend(lo, k);
    hide Owned, Filled, Path, Paths, SameBytes, FreeBlocks, LoggedOnly, SameSizes;
    assert Empty(f, n, Paths(lo, k + 1)) == Empty(f, n, Paths(lo, k)) + Empty(f, n, Path(k));
    LoopStep(sb, f, g, h, lg, lg1, lg2, n, lo, k);
  }

  /** A read of len bytes at off that cannot be completed. */
  ghost predicate Fault(sb: Super, f: Fs, n: nat, off: nat, len: nat, outstanding: nat)
    requires InodesOk(f.inodes) && n in f.inodes && sb.Ok() && sb.size <= |f.disk|
  {
    !InRange(off, len) || (Stuck(sb, f, n, Touched(off, len), outstanding) && Empty(f, n, Touched(off, len)) != {})
  }

  lemma ReadStuck(sb: Super, f: Fs, n: nat, off: nat, len: nat, k: nat, outstanding: nat)
    requires InodesOk(f.inodes) && n in f.inodes && sb.Ok() && sb.size <= |f.disk|
    requires len > 0 && off / BSIZE <= k < EndBlock(off, len)
    requires k >= MAXFILE || Stuck(sb, f, n, Paths(off / BSIZE, k + 1), outstanding)
    ensures Fault(sb, f, n, off, len, outstanding)
  {
    if InRange(off, len) {
      EmptyNoStuck(sb, f, n, Touched(off, len), outstanding);
      PathsMono(off / BSIZE, k + 1, off / BSIZE, EndBlock(off, len));
      hide Stuck, Paths;
      StuckMore(sb, f, n, Paths(off / BSIZE, k + 1), Paths(off / BSIZE, EndBlock(off, len)), outstanding);
    }
  }

  /** The block of byte tot of len bytes at off. */
  ghost function BlockAt(off: nat, len: nat, tot: nat): (k: nat)
    requires tot <= len
  {
    if tot < len then ChunkAt(off + tot, len - tot).k else EndBlock(off, len)
  }

  /** readi after tot of len bytes. */
  ghost predicate Copying(sb: Super, f: Fs, g: Fs, lg: set<nat>, lg1: set<nat>, n: nat, off: nat, len: nat, tot: nat,
                          data: seq<byte>, outstanding: nat)
    requires tot <= len
  {
    && Owned(sb, f) && n in f.inodes && Owned(sb, g) && n in g.inodes && InodesOk(f.inodes) && sb.Ok() && sb.size <= |f.disk|
    && |data| == tot && off / BSIZE <= BlockAt(off, len, tot)
    && (BlockAt(off, len, tot) <= MAXFILE ==> Reading(sb, f, g, lg, lg1, n, off / BSIZE, BlockAt(off, len, tot), outstanding))
    && if tot > 0 then off + tot <= MAXBYTES && data == Slice(f, n, off, tot) else g == f && lg1 == lg
  }

  lemma CopyStart(sb: Super, f: Fs, lg: set<nat>, n: nat, off: nat, len: nat, outstanding: nat)
    requires Owned(sb, f) && n in f.inodes
    ensures Copying(sb, f, f, lg, lg, n, off, len, 0, [], outstanding)
  {
    FilledNothing(sb, f, n, {});
    hide Owned, Filled;
  }

  lemma CopyReady(sb: Super, f: Fs, g: Fs, lg: set<nat>, lg1: set<nat>, n: nat, off: nat, len: nat, tot: nat,
                  data: seq<byte>, outstanding: nat)
    requires tot < len && Copying(sb, f, g, lg, lg1, n, off, len, tot, data, outstanding)
    ensures Owned(sb, f) && n in f.inodes && Owned(sb, g) && n in g.inodes && InodesOk(f.inodes) && sb.Ok() && sb.size <= |f.disk|
    ensures var k := ChunkAt(off + tot, len - tot).k;
            && off / BSIZE <= k < EndBlock(off, len)
            && (k < MAXFILE ==> Reading(sb, f, g, lg, lg1, n, off / BSIZE, k, outstanding))
    ensures |data| == tot && (tot > 0 ==> off + tot <= MAXBYTES && data == Slice(f, n, off, tot))
  {
    hide Owned, Reading, Slice;
    NextChunk(off, tot, len);
  }

  lemma CopyStep(sb: Super, f: Fs, h: Fs, lg: set<nat>, lg2: set<nat>, n: nat, off: nat, len: nat, tot: nat,
                 data: seq<byte>, chunk: seq<byte>, outstanding: nat)
    requires tot < len && |data| == tot && Owned(sb, f) && n in f.inodes && InodesOk(f.inodes)
    requires tot > 0 ==> off + tot <= MAXBYTES && data == Slice(f, n, off, tot)
    requires var c := ChunkAt(off + tot, len - tot);
             && off / BSIZE <= c.k < MAXFILE && Reading(sb, f, h, lg, lg2, n, off / BSIZE, c.k + 1, outstanding)
             && off + tot + c.m <= MAXBYTES && chunk == Slice(f, n, off + tot, c.m)
    ensures 0 < |chunk| <= len - tot && Copying(sb, f, h, lg, lg2, n, off, len, tot + |chunk|, data + chunk, outstanding)
  {
    hide Owned, Reading, Slice, Stuck, InodesOk, ChunkAt, EndBlock, BlockAt;
    OwnedFacts(sb, f);
    var c := ChunkAt(off + tot, len - tot);
    ReadReady(sb, f, h, lg, lg2, n, off / BSIZE, c.k + 1, outstanding);
    NextBlock(off, len, tot);
    SliceGrows(f, n, off, tot, c.m, data, chunk);
  }

  lemma NextBlock(off: nat, len: nat, tot: nat)
    requires tot < len
    ensures var c := ChunkAt(off + tot, len - tot); BlockAt(off, len, tot + c.m) == c.k + 1
  {
    hide ChunkAt, EndBlock;
    NextChunk(off, tot, len);
  }

  lemma SliceGrows(f: Fs, n: nat, off: nat, tot: nat, m: nat, data: seq<byte>, chunk: seq<byte>)
    requires InodesOk(f.inodes) && n in f.inodes && off + tot + m <= MAXBYTES
    requires |data| == tot && (tot > 0 ==> data == Slice(f, n, off, tot)) && chunk == Slice(f, n, off + tot, m)
    ensures data + chunk == Slice(f, n, off, tot + m)
  {
    if tot > 0 {
      SliceAppend(f, n, off, tot, m);
    } else {
      assert data + chunk == chunk;
    }
  }

  /** The outcome of readi's loop. */
  lemma CopyDone(sb: Super, f: Fs, g: Fs, lg: set<nat>, lg1: set<nat>, n: nat, off: nat, len: nat, data: seq<byte>, outstanding: nat)
    requires Copying(sb, f, g, lg, lg1, n, off, len, len, data, outstanding)
    ensures InRange(off, len) && |data| == len && InodesOk(f.inodes) && n in f.inodes && (len > 0 ==> data == Slice(f, n, off, len))
    ensures sb.Ok() && sb.size <= |f.disk| && !Stuck(sb, f, n, Touched(off, len), outstanding)
    ensures Extended(sb, f, g, n, Touched(off, len)) && LoggedOnly(sb, lg, lg1, f, g, n, Touched(off, len))
    ensures Empty(f, n, Touched(off, len)) == {} ==> g == f && lg1 == lg
  {
    OwnedFacts(sb, f);
    if len == 0 {
      FilledNothing(sb, f, n, {});
      assert Empty(f, n, {}) == {};
    } else {
      hide Owned, Filled, Paths, Stuck;
      StuckThen(sb, f, g, n, Touched(off, len), {}, outstanding);
    }
  }

  lemma SameSlice(f: Fs, g: Fs, n: nat, a: nat, len: nat)
    requires SameBytes(f, g) && n in f.inodes && a + len <= MAXBYTES
    ensures Slice(f, n, a, len) == Slice(g, n, a, len)
  {
    forall i | 0 <= i < len
      ensures Slice(f, n, a, len)[i] == Slice(g, n, a, len)[i]
    {
      assert ByteOf(g, n, a + i) == ByteOf(f, n, a + i);
    }
  }

  /** How many bytes a read of cnt bytes at off yields. */
  function Clip(size: nat, off: nat, cnt: nat): (len: nat)
    requires off <= size
  {
    if off + cnt > size then size - off else cnt
  }

  /** One past the last block that len bytes at off touch. */
  function EndBlock(off: nat, len: nat): (hi: nat)
    ensures off / BSIZE <= hi && (off + len <= MAXBYTES ==> hi <= MAXFILE)
  {
    if len == 0 then off / BSIZE else (off + len - 1) / BSIZE + 1
  }

  /** The disk holds inode n as memory does. */
  ghost predicate OnDisk(inodes: map<nat, Inode>, dinodes: map<nat, Inode>, n: nat) {
    n in inodes && n in dinodes && dinodes[n] == inodes[n]
  }

  /** The slots among ss that are addresses of the inode itself. */
  ghost function Roots(ss: set<Slot>): (rr: set<Slot>)
    ensures rr <= ss
  {
    set s | s in ss && InInode(s)
  }

  /** Filling slots changes the inode exactly when one of its own addresses was
      among the empty ones. */
  lemma AddrsKept(sb: Super, f: Fs, g: Fs, n: nat, ss: set<Slot>)
    requires Filled(sb, f, g, n, ss)
    ensures InodesOk(f.inodes) && n in f.inodes && n in g.inodes
    ensures g.inodes[n].addrs == f.inodes[n].addrs <==> Empty(f, n, Roots(ss)) == {}
  {
    if Empty(f, n, Roots(ss)) == {} {
      forall i | 0 <= i < NDIRECT + 2
        ensures g.inodes[n].addrs[i] == f.inodes[n].addrs[i]
      {
        var s := RootAt(i);
        assert PlaceOk(f.inodes, Place(n, s));
        if Ptr(f, Place(n, s)) == 0 {
          assert s !in Empty(f, n, Roots(ss));
        }
      }
    } else {
      var s :| s in Empty(f, n, Roots(ss));
      assert Ptr(g, Place(n, s)) != 0 && AddrIndex(s) < NDIRECT + 2;
      assert g.inodes[n].addrs[AddrIndex(s)] != f.inodes[n].addrs[AddrIndex(s)];
    }
  }

  /** The inode's own address through which a slot is reached. */
  ghost function RootOf(s: Slot): (r: Slot)
    ensures InInode(r)
  {
    if InInode(s) then s else if s.InSingle? then Single else Double
  }

  /** An address that the disk's inode has not got hides everything behind it: by
      that inode those bytes are zeros, whatever has been written to them. */
  lemma DiskReadsZero(f: Fs, dinodes: map<nat, Inode>, disk: seq<Block>, n: nat, pos: nat)
    requires InodesOk(f.inodes) && OnDisk(f.inodes, dinodes, n) && pos < MAXBYTES
    requires RootOf(SlotOf(pos / BSIZE)).Ok() && Ptr(f, Place(n, RootOf(SlotOf(pos / BSIZE)))) == 0
    ensures |dinodes[n].addrs| == NDIRECT + 2 && ByteAt(disk, dinodes[n], pos) == 0
  {
    var s := SlotOf(pos / BSIZE);
    AtIsEntry(disk, dinodes[n], s);
    if s.InDouble? {
      AtIsEntry(disk, dinodes[n], Parent(s));
    }
  }

  ghost function RootAt(i: nat): (s: Slot)
    requires i < NDIRECT + 2
    ensures s.Ok() && InInode(s) && AddrIndex(s) == i
  {
    if i < NDIRECT then Direct(i) else if i == NDIRECT then Single else Double
  }

  /** More blocks, more slots. */
  lemma {:induction false} PathsMono(a: nat, b: nat, c: nat, d: nat)
    requires c <= a && b <= d <= MAXFILE
    ensures Paths(a, b) <= Paths(c, d)
    decreases b - a, a - c
  {
    hide Path;
    if a < b {
      if c < a {
        PathsMono(a, b, c + 1, d);
      } else {
        PathsMono(a + 1, b, c + 1, d);
      }
    }
  }

  lemma {:induction false} PathsAppend(lo: nat, k: nat)
    requires lo <= k < MAXFILE
    ensures Paths(lo, k + 1) == Paths(lo, k) + Path(k)
    decreases k - lo
  {
    if lo < k {
      PathsAppend(lo + 1, k);
    } else {
      assert Paths(lo + 1, k + 1) == {};
    }
  }

  lemma PathsSplit(lo: nat, k: nat, hi: nat)
    requires lo <= k < hi <= MAXFILE
    ensures Paths(k, hi) == Path(k) + Paths(k + 1, hi)
    ensures Paths(lo, k + 1) == Paths(lo, k) + Path(k)
  {
    PathsAppend(lo, k);
  }

  /** m bytes at offset o of block k. */
  datatype Chunk = Chunk(k: nat, o: nat, m: nat)

  /** What one iteration of the copy loops handles when left bytes remain. */
  function ChunkAt(pos: nat, left: nat): (c: Chunk)
    requires left > 0
    ensures pos == BSIZE * c.k + c.o && 0 < c.m <= left && c.o + c.m <= BSIZE
  {
    var o := pos % BSIZE;
    Chunk(pos / BSIZE, o, if left < BSIZE - o then left else BSIZE - o)
  }

  /** Consecutive chunks lie in consecutive blocks, up to EndBlock. */
  lemma NextChunk(off: nat, tot: nat, len: nat)
    requires tot < len
    ensures var c := ChunkAt(off + tot, len - tot);
            && c.k < EndBlock(off, len)
            && (tot + c.m < len ==> ChunkAt(off + (tot + c.m), len - (tot + c.m)).k == c.k + 1)
            && (tot + c.m == len ==> EndBlock(off, len) == c.k + 1)
  {
    var c := ChunkAt(off + tot, len - tot);
    if tot + c.m == len {
      DivIs(off + len - 1, BSIZE, c.k, c.o + c.m - 1);
    } else {
      DivIs(off + tot + c.m, BSIZE, c.k + 1, 0);
    }
  }

  /** One more block of a loop over consecutive blocks. */
  lemma BmapStep(sb: Super, f: Fs, g: Fs, h: Fs, lg: set<nat>, lg1: set<nat>, lg2: set<nat>, n: nat, lo: nat, k: nat)
    requires lo <= k < MAXFILE
    requires Filled(sb, f, g, n, Paths(lo, k)) && Filled(sb, g, h, n, Path(k))
    requires LoggedOnly(sb, lg, lg1, f, g, n, Paths(lo, k)) && LoggedOnly(sb, lg1, lg2, g, h, n, Path(k))
    ensures Filled(sb, f, h, n, Paths(lo, k + 1))
    ensures LoggedOnly(sb, lg, lg2, f, h, n, Paths(lo, k + 1))
  {
    PathsAppend(lo, k);
    hide Owned, Filled, Path, Paths;
    FilledBoth(sb, f, g, h, n, Paths(lo, k), Path(k));
    OwnersKept(sb, g, h, n, Path(k));
    LoggedBoth(sb, lg, lg1, lg2, f, g, h, n, Paths(lo, k), Path(k), Paths(lo, k + 1));
  }

  /** What lies in block k of the file, through its block number. */
  lemma CopiedBytes(sb: Super, f: Fs, h: Fs, n: nat, ss: set<Slot>, k: nat, o: nat, m: nat)
    requires Extended(sb, f, h, n, ss) && k < MAXFILE && o + m <= BSIZE
    requires n in h.inodes && InodesOk(h.inodes) && Ptr(h, Place(n, SlotOf(k))) != 0
    ensures Ptr(h, Place(n, SlotOf(k))) < |h.disk|
    ensures InodesOk(f.inodes) && n in f.inodes && BSIZE * k + o + m <= MAXBYTES
    ensures h.disk[Ptr(h, Place(n, SlotOf(k)))][o..o + m] == Slice(f, n, BSIZE * k + o, m)
  {
    hide Owned, Filled, Ptr, ByteOf, SameSizes;
    var addr := Ptr(h, Place(n, SlotOf(k)));
    assert Owned(sb, h) by { ExtendedIs(sb, f, h, n, ss); }
    PtrIs(sb, h, Place(n, SlotOf(k)));
    assert BSIZE * k + BSIZE <= MAXBYTES;
    var a, b := h.disk[addr][o..o + m], Slice(f, n, BSIZE * k + o, m);
    forall i | 0 <= i < m
      ensures a[i] == b[i]
    {
      BytesOfBlock(h, n, k, o + i);
      assert ByteOf(h, n, BSIZE * k + (o + i)) == ByteOf(f, n, BSIZE * k + (o + i));
      assert b[i] == ByteOf(f, n, BSIZE * k + o + i);
    }
  }

  lemma ExtendedParts(sb: Super, f: Fs, g: Fs, n: nat, ss: set<Slot>)
    requires Extended(sb, f, g, n, ss)
    ensures Filled(sb, f, g, n, ss) && SameSizes(f, g) && SameBytes(f, g)
  {
  }

  lemma ExtendedFacts(sb: Super, f: Fs, n: nat)
    requires Owned(sb, f) && n in f.inodes
    ensures InodesOk(f.inodes) && sb.Ok() && sb.size <= |f.disk|
  {
  }

  lemma ExtendedIs(sb: Super, f: Fs, g: Fs, n: nat, ss: set<Slot>)
    requires Extended(sb, f, g, n, ss)
    ensures Filled(sb, f, g, n, ss) && Owned(sb, f) && Owned(sb, g) && n in f.inodes && n in g.inodes
    ensures InodesOk(f.inodes) && InodesOk(g.inodes) && sb.Ok() && sb.size <= |f.disk| == |g.disk|
    ensures forall s :: s in ss ==> s.Ok() && Ptr(g, Place(n, s)) != 0
    ensures forall s: Slot :: s.Ok() && Ptr(f, Place(n, s)) != 0 ==> Ptr(g, Place(n, s)) == Ptr(f, Place(n, s))
  {
    forall s: Slot | s.Ok() && Ptr(f, Place(n, s)) != 0
      ensures Ptr(g, Place(n, s)) == Ptr(f, Place(n, s))
    {
      assert PlaceOk(f.inodes, Place(n, s));
    }
  }

  lemma EmptyLess(f: Fs, n: nat, ss: set<Slot>, tt: set<Slot>)
    requires InodesOk(f.inodes) && n in f.inodes && ss <= tt
    ensures |Empty(f, n, ss)| <= |Empty(f, n, tt)|
  {
    SubsetSize(Empty(f, n, ss), Empty(f, n, tt));
  }

  lemma {:induction false} SubsetSize<T>(a: set<T>, b: set<T>)
    requires a <= b
    ensures |a| <= |b|
  {
    assert b == a + (b - a);
  }

  lemma EmptyOfAll(f: Fs, n: nat, ss: set<Slot>)
    requires InodesOk(f.inodes) && n in f.inodes && SlotsOk(ss)
    ensures Empty(f, n, ss) == {} <==> forall s :: s in ss ==> Ptr(f, Place(n, s)) != 0
  {
    if Empty(f, n, ss) == {} {
      forall s | s in ss
        ensures Ptr(f, Place(n, s)) != 0
      {
        assert s !in Empty(f, n, ss);
      }
    }
  }

  lemma EmptyPath(f: Fs, n: nat, bn: nat)
    requires InodesOk(f.inodes) && n in f.inodes && bn < NDIRECT
    ensures Path(bn) == {Direct(bn)}
    ensures Empty(f, n, {Direct(bn)}) == {} <==> Ptr(f, Place(n, Direct(bn))) != 0
  {
    EmptyOfAll(f, n, {Direct(bn)});
  }

  /** Blocks stay with their slots when a file is extended. */
  lemma OwnersKept(sb: Super, f: Fs, g: Fs, n: nat, ss: set<Slot>)
    requires Filled(sb, f, g, n, ss)
    ensures forall b :: b in f.owner ==> b in g.owner && g.owner[b] == f.owner[b]
    ensures sb.Ok() && sb.size <= |f.disk| && sb.size <= |g.disk| && FreeBlocks(sb, g.disk) <= FreeBlocks(sb, f.disk)
  {
    OwnedFacts(sb, f);
    hide Ptr, InUse, FreeBlocks, Empty, SameBytes, Owned;
    forall b | b in f.owner
      ensures b in g.owner && g.owner[b] == f.owner[b]
    {
      OwnerIs(sb, f, b);
      PtrIs(sb, g, f.owner[b]);
    }
  }

  lemma LoggedBoth(sb: Super, a: set<nat>, b: set<nat>, c: set<nat>, f: Fs, g: Fs, h: Fs, n: nat,
                   ss: set<Slot>, tt: set<Slot>, uu: set<Slot>)
    requires LoggedOnly(sb, a, b, f, g, n, ss) && LoggedOnly(sb, b, c, g, h, n, tt)
    requires ss <= uu && tt <= uu && FreeBlocks(sb, h.disk) <= FreeBlocks(sb, g.disk) <= FreeBlocks(sb, f.disk)
    requires forall x :: x in g.owner ==> x in h.owner && h.owner[x] == g.owner[x]
    ensures LoggedOnly(sb, a, c, f, h, n, uu)
  {
    hide FreeBlocks;
    var s, t := Taken(sb, f, g), Taken(sb, g, h);
    assert Taken(sb, f, h) == s + t;
    assert BitBlocks(sb, s + t) == BitBlocks(sb, s) + BitBlocks(sb, t);
  }

  lemma SameBits(sb: Super, d: seq<Block>, e: seq<Block>)
    requires sb.Ok() && sb.size <= |d| == |e|
    requires forall x: nat :: x < sb.datastart ==> e[x] == d[x]
    ensures forall c: nat :: c < sb.size ==> (InUse(sb, e, c) <==> InUse(sb, d, c))
  {
    forall c: nat | c < sb.size
      ensures InUse(sb, e, c) <==> InUse(sb, d, c)
    {
      BitBlockIsMeta(sb, c);
    }
  }

  lemma BitOf(sb: Super, q: nat, bi: nat)
    requires bi < BPB
    ensures sb.BitBlock(BPB * q + bi) == sb.BitBlock(BPB * q)
    ensures (BPB * q + bi) % BPB == bi && (BPB * q + bi) % 8 == bi % 8
  {
    DivIs(BPB * q + bi, BPB, q, bi);
    BitOffset(BPB * q + bi);
  }

  lemma BitOffset(b: nat)
    ensures b % 8 == (b % BPB) % 8 && b == BPB * (b / BPB) + 8 * ((b % BPB) / 8) + b % 8
  {
    var q, r := b / BPB, b % BPB;
    var s, t := r / 8, r % 8;
    assert b == 8 * (512 * q + s) + t;
    DivIs(b, 8, 512 * q + s, t);
  }

  /** Two blocks with the same bit are the same block. */
  lemma BitPosition(b: nat, c: nat)
    requires b / BPB == c / BPB && (b % BPB) / 8 == (c % BPB) / 8 && b % 8 == c % 8
    ensures b == c
  {
    BitOffset(b);
    BitOffset(c);
  }

  lemma MarkedBit(sb: Super, d: seq<Block>, b: nat, c: nat)
    requires sb.Ok() && sb.size <= |d| && b < sb.size && c < sb.size
    ensures sb.BitBlock(b) < |d|
    ensures var k := b % BPB;
            var x := d[sb.BitBlock(b)];
            InUse(sb, d[sb.BitBlock(b) := x[k / 8 := FlipBit(x[k / 8], k % 8)]], c)
            <==> if c == b then !InUse(sb, d, b) else InUse(sb, d, c)
  {
    BitBlockIsMeta(sb, b);
    BitBlockIsMeta(sb, c);
    var k := b % BPB;
    BitOffset(b);
    if b / BPB == c / BPB && k / 8 == (c % BPB) / 8 {
      if b % 8 == c % 8 {
        BitPosition(b, c);
      }
    }
  }
}
