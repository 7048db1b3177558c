/** Open files: lseek, fileread, and filewrite with its chunks of at most 1536
    bytes and its holes, against one flat byte sequence per file. */
module OpenFiles {
  import opened Blocks
  import opened FsModel
  import opened FileSystem
  import DiskLog

  /** The most that filewrite passes to writei in one transaction. */
  const MAXCHUNK := 1536

  /** The size of a process's kernel stack. */
  const KSTACKSIZE := 4096

  /** The contents of file n as one byte sequence. */
  ghost function Contents(f: Fs, n: nat): (c: seq<byte>)
    requires InodesOk(f.inodes) && n in f.inodes && f.inodes[n].size <= MAXBYTES
    ensures |c| == f.inodes[n].size
  {
    Slice(f, n, 0, f.inodes[n].size)
  }

  ghost function Zeros(k: nat): (z: seq<byte>) {
    seq(k, _ => 0)
  }

  /** c with src written at off, the gap in between filled with zeros. */
  ghost function Overlay(c: seq<byte>, off: nat, src: seq<byte>): (r: seq<byte>) {
    if off > |c| then c + Zeros(off - |c|) + src
    else if off + |src| > |c| then c[..off] + src
    else c[..off] + src + c[off + |src|..]
  }

  /** How many of total bytes filewrite at off gets written. */
  function Fitting(off: nat, total: nat): (w: nat)
    ensures w <= total && (w > 0 ==> off + w <= MAXBYTES)
  {
    if off + total <= MAXBYTES then total
    else if off > MAXBYTES then 0
    else
      var j := (MAXBYTES - off) / MAXCHUNK;
      if j * MAXCHUNK <= total then j * MAXCHUNK else total
  }

  /** All of it if that fits the largest file; otherwise as many whole chunks as do,
      so that the next one does not. */
  lemma FittingExact(off: nat, total: nat)
    ensures var w := Fitting(off, total);
            && (w == total <==> total == 0 || off + total <= MAXBYTES)
            && (w < total ==> w % MAXCHUNK == 0 && off + w + (if total - w > MAXCHUNK then MAXCHUNK else total - w) > MAXBYTES)
  {
    if off + total > MAXBYTES && off <= MAXBYTES {
      var m := MAXBYTES - off;
      WholeChunks(m, 0);
      assert (m / 1536 * 1536) % 1536 == 0;
    }
  }

  /** A splice of file n that also sets its size is an overlay of its contents,
      provided the bytes past its old end were zero. */
  lemma SpliceIsOverlay(f: Fs, g: Fs, n: nat, off: nat, src: seq<byte>)
    requires TailZero(f) && n in f.inodes && Spliced(f, g, n, off, src) && Resized(f, g, n, off + |src|)
    requires f.inodes[n].size <= MAXBYTES && off + |src| <= MAXBYTES
    ensures n in g.inodes && g.inodes[n].size <= MAXBYTES
    ensures Contents(g, n) == Overlay(Contents(f, n), off, src)
  {
    var c, d := Contents(f, n), Overlay(Contents(f, n), off, src);
    var e := Contents(g, n);
    assert |e| == |d|;
    forall i | 0 <= i < |e|
      ensures e[i] == d[i]
    {
      assert e[i] == ByteOf(g, n, 0 + i);
      assert i < |c| ==> c[i] == ByteOf(f, n, 0 + i);
    }
  }

  /** ... leaves the contents of every other file alone, and the tails zero. */
  lemma SpliceKeepsOthers(f: Fs, g: Fs, n: nat, off: nat, src: seq<byte>)
    requires TailZero(f) && n in f.inodes && Spliced(f, g, n, off, src) && Resized(f, g, n, off + |src|)
    ensures TailZero(g)
    ensures forall k :: k in f.inodes && k != n && f.inodes[k].size <= MAXBYTES ==>
              k in g.inodes && g.inodes[k].size == f.inodes[k].size && Contents(g, k) == Contents(f, k)
  {
    forall k: nat, pos: nat | k in g.inodes && g.inodes[k].size <= pos < MAXBYTES
      ensures ByteOf(g, k, pos) == 0
    {
      assert k in f.inodes && ByteOf(f, k, pos) == 0;
    }
    forall k | k in f.inodes && k != n && f.inodes[k].size <= MAXBYTES
      ensures k in g.inodes && g.inodes[k].size == f.inodes[k].size && Contents(g, k) == Contents(f, k)
    {
      var c, d := Contents(f, k), Contents(g, k);
      forall i | 0 <= i < |c|
        ensures c[i] == d[i]
      {
        assert c[i] == ByteOf(f, k, 0 + i) && d[i] == ByteOf(g, k, 0 + i);
      }
    }
  }

  lemma {:induction false} PathsJoin(a: nat, b: nat, c: nat, d: nat)
    requires a <= c <= b <= d <= MAXFILE
    ensures Paths(a, b) + Paths(c, d) == Paths(a, d)
    decreases c - a
  {
    hide Path;
    if a < c {
      PathsJoin(a + 1, b, c, d);
    } else {
      PathsMono(a, b, a, d);
    }
  }

  lemma TouchedJoin(off: nat, x: nat, y: nat)
    requires 0 < y && off + x + y <= MAXBYTES
    ensures Touched(off, x) + Touched(off + x, y) == Touched(off, x + y)
  {
    if x == 0 {
      assert Touched(off, 0) == {};
    } else {
      assert off / BSIZE <= (off + x) / BSIZE <= EndBlock(off, x) <= EndBlock(off, x + y) by {
        assert off + x - 1 <= off + x && off + x <= off + x + y - 1;
      }
      PathsJoin(off / BSIZE, EndBlock(off, x), (off + x) / BSIZE, EndBlock(off, x + y));
    }
  }

  /** A chunk that starts at i fits exactly when i is before Fitting. */
  lemma FittingStep(off: nat, total: nat, q: nat)
    requires MAXCHUNK * q < total && MAXCHUNK * q <= Fitting(off, total)
    ensures var i := MAXCHUNK * q;
            var n1 := if total - i > MAXCHUNK then MAXCHUNK else total - i;
            && (off + i + n1 <= MAXBYTES <==> i < Fitting(off, total))
            && (i < Fitting(off, total) ==> i + n1 <= Fitting(off, total) && (i + n1 == MAXCHUNK * (q + 1) || i + n1 == total))
  {
    if off + total > MAXBYTES && off <= MAXBYTES {
      WholeChunks(MAXBYTES - off, q);
    }
  }

  /** How many whole chunks fit into m bytes. */
  lemma WholeChunks(m: nat, q: nat)
    ensures MAXCHUNK * (m / MAXCHUNK) <= m < MAXCHUNK * (m / MAXCHUNK) + MAXCHUNK
    ensures MAXCHUNK * (q + 1) <= m <==> q < m / MAXCHUNK
    ensures q < m / MAXCHUNK ==> MAXCHUNK * (q + 1) <= MAXCHUNK * (m / MAXCHUNK)
  {
    assert MAXCHUNK == 1536;
    var j := m / 1536;
    assert m == 1536 * j + m % 1536;
  }

  /** After writing [cur, cur + len) the rest of the range up to end still has
      the blocks it needs. */
  lemma RoomAfter(sb: Super, f: Fs, g: Fs, n: nat, cur: nat, len: nat, end: nat)
    requires cur + len <= end <= MAXBYTES && 0 < len
    requires Filled(sb, f, g, n, Touched(cur, len))
    requires |Empty(f, n, Touched(cur, end - cur))| <= |FreeBlocks(sb, f.disk)|
    ensures |Empty(g, n, Touched(cur + len, end - cur - len))| <= |FreeBlocks(sb, g.disk)|
  {
    hide Touched, Filled, Owned, FreeBlocks, Empty;
    FilledParts(sb, f, g, n, Touched(cur, len));
    if end == cur + len {
      NoSlots(g, n, end);
    } else {
      TouchedJoin(cur, len, end - cur - len);
      EmptyRest(sb, f, g, n, Touched(cur, len), Touched(cur + len, end - cur - len));
    }
  }

  lemma NoSlots(f: Fs, n: nat, off: nat)
    requires InodesOk(f.inodes) && n in f.inodes
    ensures |Empty(f, n, Touched(off, 0))| == 0
  {
    assert Empty(f, n, {}) == {};
  }

  lemma RoomBefore(sb: Super, f: Fs, n: nat, cur: nat, len: nat, end: nat)
    requires cur + len <= end <= MAXBYTES && 0 < len
    requires InodesOk(f.inodes) && n in f.inodes && sb.Ok() && sb.size <= |f.disk|
    requires |Empty(f, n, Touched(cur, end - cur))| <= |FreeBlocks(sb, f.disk)|
    ensures |Empty(f, n, Touched(cur, len))| <= |FreeBlocks(sb, f.disk)|
  {
    hide Touched, FreeBlocks, Empty;
    if cur + len < end {
      TouchedJoin(cur, len, end - cur - len);
    }
    EmptyLess(f, n, Touched(cur, len), Touched(cur, end - cur));
  }

  // ---- how much one transaction logs

  /** The index slots on the paths of blocks lo .. hi - 1. */
  ghost function IndexSlots(lo: nat, hi: nat): (ss: set<Slot>)
    requires hi <= MAXFILE
  {
    set s | s in Paths(lo, hi) && !s.Leaf()
  }

  ghost function LeafSlots(lo: nat, hi: nat): (ss: set<Slot>)
    requires hi <= MAXFILE
  {
    set s | s in Paths(lo, hi) && s.Leaf()
  }

  lemma {:induction false} LeafCount(lo: nat, hi: nat)
    requires lo <= hi <= MAXFILE
    ensures |LeafSlots(lo, hi)| <= hi - lo
    decreases hi - lo
  {
    if lo < hi {
      LeafCount(lo + 1, hi);
      assert LeafSlots(lo, hi) <= {SlotOf(lo)} + LeafSlots(lo + 1, hi);
      SubsetSize(LeafSlots(lo, hi), {SlotOf(lo)} + LeafSlots(lo + 1, hi));
    } else {
      assert LeafSlots(lo, hi) == {};
    }
  }

  const FIRST_DOUBLE := NDIRECT + NINDIRECT

  /** Every index slot on a path over [lo, hi) is one of at most three. */
  lemma {:induction false} IndexSlotsAre(lo: nat, hi: nat, base: nat)
    requires base <= lo <= hi <= MAXFILE && hi <= base + 4
    ensures forall s :: s in IndexSlots(lo, hi) ==>
              if base < FIRST_DOUBLE then s in {Single, Double, Middle(0)}
              else s in {Double, Middle((base - FIRST_DOUBLE) / NINDIRECT), Middle((base - FIRST_DOUBLE) / NINDIRECT + 1)}
    decreases hi - lo
  {
    if lo < hi {
      IndexSlotsAre(lo + 1, hi, base);
      forall s | s in IndexSlots(lo, hi) && s !in IndexSlots(lo + 1, hi)
        ensures s in Path(lo) && !s.Leaf()
      {
      }
    }
  }

  /** Four consecutive blocks need at most three index blocks, wherever they
      cross a level or a second-level boundary. */
  lemma IndexCount(lo: nat, hi: nat)
    requires lo <= hi <= MAXFILE && hi <= lo + 4
    ensures |IndexSlots(lo, hi)| <= 3
  {
    IndexSlotsAre(lo, hi, lo);
    if lo < FIRST_DOUBLE {
      SubsetSize(IndexSlots(lo, hi), {Single, Double, Middle(0)});
    } else {
      var i := (lo - FIRST_DOUBLE) / NINDIRECT;
      SubsetSize(IndexSlots(lo, hi), {Double, Middle(i), Middle(i + 1)});
    }
  }

  /** Different blocks of one inode sit in different slots. */
  lemma {:induction false} BlocksCount(f: Fs, n: nat, ss: set<Slot>)
    requires InodesOk(f.inodes) && n in f.inodes && SlotsOk(ss)
    ensures |BlocksOf(f, n, ss)| <= |ss|
  {
    if ss != {} {
      var s :| s in ss;
      BlocksCount(f, n, ss - {s});
      assert BlocksOf(f, n, ss) <= BlocksOf(f, n, ss - {s}) + {Ptr(f, Place(n, s))};
      SubsetSize(BlocksOf(f, n, ss), BlocksOf(f, n, ss - {s}) + {Ptr(f, Place(n, s))});
    }
  }

  /** The blocks that a transaction logged when it allocated bs: those, the bitmap
      blocks with their bits, at most four data and three index blocks of file n
      in all, and its inode block. */
  ghost predicate Footprint(sb: Super, lg: set<nat>, n: nat, bs: set<nat>) {
    exists data: set<nat>, index: set<nat> :: CoveredBy(sb, lg, n, bs, data, index)
  }

  ghost predicate CoveredBy(sb: Super, lg: set<nat>, n: nat, bs: set<nat>, data: set<nat>, index: set<nat>) {
    && |data| <= 4 && |index| <= 3
    && bs + BitBlocks(sb, bs) <= lg <= BitBlocks(sb, bs) + data + index + {InodeBlock(sb, n)}
  }

  /** Hence its size, but for blocks of the file that were there before. */
  lemma FootprintSize(sb: Super, lg: set<nat>, n: nat, bs: set<nat>)
    requires sb.Ok() && Footprint(sb, lg, n, bs) && (forall b :: b in bs ==> sb.Data(b)) && InodeBlock(sb, n) < sb.bmapstart
    ensures |bs| + |BitBlocks(sb, bs)| + (if InodeBlock(sb, n) in lg then 1 else 0) <= |lg| <= |BitBlocks(sb, bs)| + 8
  {
    var data: set<nat>, index: set<nat> :| CoveredBy(sb, lg, n, bs, data, index);
    var bits, i := BitBlocks(sb, bs), {InodeBlock(sb, n)};
    UnionSize(bits, data);
    UnionSize(bits + data, index);
    UnionSize(bits + data + index, i);
    SubsetSize(lg, bits + data + index + i);
    forall b | b in bs
      ensures sb.bmapstart <= sb.BitBlock(b) < sb.datastart
    {
      BitBlockIsMeta(sb, b);
    }
    assert bs !! bits && i !! bs + bits;
    SubsetSize(bs + bits, lg);
    if InodeBlock(sb, n) in lg {
      SubsetSize(bs + bits + i, lg);
    }
  }

  lemma UnionSize<T>(a: set<T>, b: set<T>)
    ensures |a + b| <= |a| + |b|
  {
    assert a + b == a + (b - a);
    SubsetSize(b - a, b);
  }

  lemma FootprintOf(sb: Super, lg: set<nat>, f: Fs, g: Fs, n: nat, off: nat, len: nat)
    requires Owned(sb, g) && n in g.inodes && off + len <= MAXBYTES && len <= MAXCHUNK
    requires LoggedOnly(sb, {InodeBlock(sb, n)}, lg + {InodeBlock(sb, n)}, f, g, n, Paths(off / BSIZE, EndBlock(off, len)))
    requires Taken(sb, f, g) + BitBlocks(sb, Taken(sb, f, g)) <= lg
    ensures Footprint(sb, lg, n, Taken(sb, f, g))
  {
    var lo, hi := off / BSIZE, EndBlock(off, len);
    assert hi <= lo + 4;
    LeafCount(lo, hi);
    IndexCount(lo, hi);
    var data, index := BlocksOf(g, n, LeafSlots(lo, hi)), BlocksOf(g, n, IndexSlots(lo, hi));
    BlocksCount(g, n, LeafSlots(lo, hi));
    BlocksCount(g, n, IndexSlots(lo, hi));
    forall x | x in lg
      ensures x in BitBlocks(sb, Taken(sb, f, g)) + data + index + {InodeBlock(sb, n)}
    {
      if x != InodeBlock(sb, n) && x !in BitBlocks(sb, Taken(sb, f, g)) {
        OwnerIs(sb, g, x);
        assert g.owner[x] == Place(n, g.owner[x].slot);
      }
    }
    assert CoveredBy(sb, lg, n, Taken(sb, f, g), data, index);
  }

  /** Where lseek leaves an offset, in 32-bit arithmetic. */
  function Sought(off: uint, delta: int): (r: uint)
    ensures 0 <= off + delta < UINT_LIMIT ==> r == off + delta
    ensures -UINT_LIMIT <= off + delta < 0 ==> r == off + delta + UINT_LIMIT
    ensures UINT_LIMIT <= off + delta < 2 * UINT_LIMIT ==> r == off + delta - UINT_LIMIT
  {
    (off + delta) % UINT_LIMIT
  }

  /** lseek to position delta gets there exactly when the file was at position 0;
      from position 15, lseek(fd, 10) goes to 25. */
  lemma SeekSetExact(off: uint, delta: int)
    requires 0 <= delta < 0x8000_0000
    ensures Sought(off, delta) == delta <==> off == 0
    ensures Sought(15, 10) == 25
  {
    assert off + delta < 2 * UINT_LIMIT;
  }

  /** An open regular file: its inode number and the current offset. */
  class OpenFile {
    const fs: Volume
    const n: nat
    const readable: bool
    const writable: bool
    var off: uint

    constructor (v: Volume, inum: nat, mayRead: bool, mayWrite: bool)
      ensures fs == v && n == inum && readable == mayRead && writable == mayWrite && off == 0
    {
      fs, n, readable, writable, off := v, inum, mayRead, mayWrite, 0;
    }

    /** lseek moves the offset relative to where it is. */
    method Seek(delta: int) returns (r: uint)
      requires -0x8000_0000 <= delta < 0x8000_0000
      modifies this`off
      ensures r == off == Sought(old(off), delta)
      ensures 0 <= delta ==> (off == delta <==> old(off) == 0)
    {
      off := Sought(off, delta);
      r := off;
      if 0 <= delta {
        SeekSetExact(old(off), delta);
      }
    }

    /** fileread. No operation is begun for it, so a read that meets a hole while
        none is outstanding ends in the panic of log_write, and one that goes past
        the largest file in the panic of bmap; otherwise it returns the bytes at
        the offset and moves the offset behind them. */
    method Read(cnt: uint) returns (r: int, data: seq<byte>, panicked: bool)
      requires Owned(fs.sb, fs.Now()) && n in fs.inodes
      modifies this`off, fs`disk, fs`inodes, fs`owner, fs`logged
      ensures r == -1 <==> !readable || old(off) > old(fs.inodes)[n].size || old(off) + cnt >= UINT_LIMIT
      ensures r == -1 ==> fs.Now() == old(fs.Now()) && off == old(off) && !panicked
      ensures r != -1 ==>
                && r == Clip(old(fs.inodes)[n].size, old(off), cnt)
                && 0 <= r <= cnt && old(off) + r <= old(fs.inodes)[n].size && (r < cnt ==> old(off) + r == old(fs.inodes)[n].size)
                && (panicked <==> !InRange(old(off), r) || Stuck(fs.sb, old(fs.Now()), n, Touched(old(off), r), fs.outstanding))
                && (InRange(old(off), r) && Empty(old(fs.Now()), n, Touched(old(off), r)) == {} ==> fs.Now() == old(fs.Now()))
                && (!panicked ==>
                      && off == old(off) + r && |data| == r && (r > 0 ==> data == Slice(old(fs.Now()), n, old(off), r))
                      && (old(fs.inodes)[n].size <= MAXBYTES ==> data == Contents(old(fs.Now()), n)[old(off)..old(off) + r])
                      && Extended(fs.sb, old(fs.Now()), fs.Now(), n, Touched(old(off), r))
                      && (OnDisk(old(fs.inodes), fs.dinodes, n) ==>
                            (OnDisk(fs.inodes, fs.dinodes, n) <==> Empty(old(fs.Now()), n, Roots(Touched(old(off), r))) == {})))
    {
      hide Extended, LoggedOnly, Owned, Empty, Slice, Contents, Roots, Touched, Stuck;
      ghost var f := fs.Now();
      OwnedFacts(fs.sb, f);
      if !readable {
        return -1, [], false;
      }
      r, data, panicked := fs.Readi(n, off, cnt);
      if !panicked && r != -1 {
        if f.inodes[n].size <= MAXBYTES {
          ContentsSlice(f, n, off, r);
        }
        ReadOnDisk(fs.sb, f, fs.Now(), fs.dinodes, n, Touched(off, r));
      }
      if r > 0 && !panicked {
        off := off + r;
      }
    }

    /** One begin_op .. end_op of filewrite. logged starts empty, and at the end
        it holds what this transaction logged. */
    method WriteChunk(piece: seq<byte>) returns (r: int)
      requires Owned(fs.sb, fs.Now()) && n in fs.inodes && 0 < |piece| <= MAXCHUNK
      requires off <= fs.inodes[n].size && off + |piece| <= MAXBYTES ==>
                 |Empty(fs.Now(), n, Touched(off, |piece|))| <= |FreeBlocks(fs.sb, fs.disk)|
      modifies this`off, fs`disk, fs`inodes, fs`dinodes, fs`owner, fs`logged, fs`outstanding
      ensures r == -1 <==> old(off) > old(fs.inodes)[n].size || old(off) + |piece| > MAXBYTES
      ensures r == -1 ==> fs.Now() == old(fs.Now()) && off == old(off) && fs.dinodes == old(fs.dinodes)
      ensures r != -1 ==>
                && r == |piece| && off == old(off) + |piece|
                && Filled(fs.sb, old(fs.Now()), fs.Now(), n, Touched(old(off), |piece|))
                && Spliced(old(fs.Now()), fs.Now(), n, old(off), piece)
                && Resized(old(fs.Now()), fs.Now(), n, old(off) + |piece|)
                && n in fs.inodes
                && fs.dinodes == if off > old(fs.inodes)[n].size then old(fs.dinodes)[n := fs.inodes[n]] else old(fs.dinodes)
      ensures fs.sb.Ok() && fs.sb.size <= |fs.disk| && fs.outstanding == old(fs.outstanding)
      ensures Footprint(fs.sb, fs.logged, n, Taken(fs.sb, old(fs.Now()), fs.Now()))
      ensures r != -1 && off > old(fs.inodes)[n].size ==> InodeBlock(fs.sb, n) in fs.logged
    {
      hide Filled, LoggedOnly, Owned, Paths, Empty, FreeBlocks, EndBlock, Spliced, Resized, Footprint, OnDisk, Roots, Taken;
      OwnedFacts(fs.sb, fs.Now());
      fs.outstanding := fs.outstanding + 1;
      fs.logged := {};
      r := fs.Writei(n, off, piece);
      if r != -1 {
        FilledParts(fs.sb, old(fs.Now()), fs.Now(), n, Paths(off / BSIZE, EndBlock(off, |piece|)));
        assert {} + {InodeBlock(fs.sb, n)} == {InodeBlock(fs.sb, n)};
        FootprintOf(fs.sb, fs.logged, old(fs.Now()), fs.Now(), n, off, |piece|);
      } else {
        FootprintNone(fs.sb, old(fs.Now()), n);
      }
      if r > 0 {
        off := off + r;
      }
      fs.outstanding := fs.outstanding - 1;
    }

    /** filewrite. An offset past the end first raises the size to the offset
        (the write of zeros that precedes it is refused by writei); then the
        data goes out in chunks until one does not fit the largest file. The
        inode on the disk keeps up if the file grew by what was written, or if it
        needed neither a new size nor a new address. The zeros lie on the kernel
        stack: overrun says that they are as many as the whole stack has bytes, and
        the kernel gets to the rest only without it. */
    method Write(src: seq<byte>) returns (r: int, overrun: bool)
      requires Owned(fs.sb, fs.Now()) && n in fs.inodes && |src| < 0x8000_0000
      requires |Empty(fs.Now(), n, Touched(off, Fitting(off, |src|)))| <= |FreeBlocks(fs.sb, fs.disk)|
      modifies this`off, fs`disk, fs`inodes, fs`dinodes, fs`owner, fs`logged, fs`outstanding
      ensures overrun <==> writable && old(off) >= old(fs.inodes)[n].size + KSTACKSIZE
      ensures !writable ==> r == -1 && fs.Now() == old(fs.Now()) && off == old(off)
      ensures writable ==>
                && var w := Fitting(old(off), |src|);
                && r == (if w == |src| then |src| else -1)
                && (r == |src| <==> src == [] || old(off) + |src| <= MAXBYTES)
                && (r == -1 ==> w % MAXCHUNK == 0 && old(off) + w + (if |src| - w > MAXCHUNK then MAXCHUNK else |src| - w) > MAXBYTES)
                && off == old(off) + w
                && Spliced(old(fs.Now()), fs.Now(), n, old(off), src[..w])
                && Resized(old(fs.Now()), fs.Now(), n, old(off) + w)
                && Filled(fs.sb, old(fs.Now()), fs.Now(), n, Touched(old(off), w))
                && (OnDisk(old(fs.inodes), old(fs.dinodes), n) ==>
                      (OnDisk(fs.inodes, fs.dinodes, n) <==>
                         if w > 0 && old(off) + w > old(fs.inodes)[n].size then true
                         else old(off) <= old(fs.inodes)[n].size && Empty(old(fs.Now()), n, Roots(Touched(old(off), w))) == {}))
      ensures fs.outstanding == old(fs.outstanding)
    {
      hide Filled, LoggedOnly, Owned, Paths, Empty, FreeBlocks, EndBlock, Spliced, Resized, Footprint, Fitting, InodesOk, Touched, Roots;
      if !writable {
        return -1, false;
      }
      ghost var f, start, w, size := fs.Now(), off, Fitting(off, |src|), fs.inodes[n].size;
      FittingExact(off, |src|);
      OwnedFacts(fs.sb, f);
      overrun := FillHole();
      ChunksStart(fs.sb, f, fs.Now(), n, start, src);
      var i := 0;
      ghost var q: nat := 0;
      r := 0;
      while i < |src|
        invariant 0 <= i <= w && off == start + i && (i == MAXCHUNK * q || i == |src|)
        invariant ChunksAt(fs.sb, f, fs.Now(), n, start, i, w, src)
        invariant KeptUp(f, fs.Now(), old(fs.dinodes), fs.dinodes, n, start, i)
        invariant fs.outstanding == old(fs.outstanding)
        invariant i == |src| || r >= 0
        decreases |src| - i
      {
        var n1 := |src| - i;
        if n1 > MAXCHUNK {
          n1 := MAXCHUNK;
        }
        FittingStep(start, |src|, q);
        ghost var g, dd := fs.Now(), fs.dinodes;
        ChunksReady(fs.sb, f, g, n, start, i, n1, w, src);
        r := WriteChunk(src[i..i + n1]);
        if r < 0 {
          break;
        }
        ChunkDone(fs.sb, f, g, fs.Now(), n, start, i, n1, w, src);
        KeptUpStep(f, g, fs.Now(), old(fs.dinodes), dd, fs.dinodes, n, start, i, n1);
        i, q := i + r, q + 1;
      }
      r := if i == |src| then |src| else -1;
      ChunksAll(fs.sb, f, fs.Now(), old(fs.dinodes), fs.dinodes, n, start, w, src);
    }

    /** The first part of filewrite, for an offset past the end of the file: an
        operation in which writei refuses, and a new size in memory. The zeros for
        writei are an array on the kernel stack as long as the gap. */
    method FillHole() returns (overrun: bool)
      requires Owned(fs.sb, fs.Now()) && n in fs.inodes
      modifies fs`disk, fs`inodes, fs`dinodes, fs`owner, fs`logged, fs`outstanding
      ensures overrun <==> off >= old(fs.inodes)[n].size + KSTACKSIZE
      ensures Filled(fs.sb, old(fs.Now()), fs.Now(), n, {}) && n in fs.inodes && off <= fs.inodes[n].size
      ensures Spliced(old(fs.Now()), fs.Now(), n, off, []) && Resized(old(fs.Now()), fs.Now(), n, off)
      ensures fs.disk == old(fs.disk) && fs.dinodes == old(fs.dinodes) && fs.outstanding == old(fs.outstanding)
      ensures fs.inodes[n].addrs == old(fs.inodes)[n].addrs
      ensures InodesOk(old(fs.inodes)) && InodesOk(fs.inodes)
      ensures forall ss: set<Slot> :: Empty(fs.Now(), n, ss) == Empty(old(fs.Now()), n, ss)
    {
      hide Owned, Filled, Spliced, InodesOk, Empty, FreeBlocks;
      ghost var f := fs.Now();
      OwnedFacts(fs.sb, f);
      overrun := false;
      if off > fs.inodes[n].size {
        var diff := off - fs.inodes[n].size;
        overrun := diff >= KSTACKSIZE;
        fs.outstanding := fs.outstanding + 1;
        var _ := fs.Writei(n, off, seq(diff, _ => 0));
        fs.outstanding := fs.outstanding - 1;
        SizeSet(fs.sb, f, n, off);
        fs.inodes := fs.inodes[n := fs.inodes[n].(size := fs.inodes[n].size + diff)];
      } else {
        SplicedNothing(f, n, off);
        FilledNothing(fs.sb, f, n, {});
      }
    }
  }

  /** What a read moves in memory is exactly what the disk does not get. */
  lemma ReadOnDisk(sb: Super, f: Fs, g: Fs, dd: map<nat, Inode>, n: nat, ss: set<Slot>)
    requires Extended(sb, f, g, n, ss)
    ensures InodesOk(f.inodes) && n in f.inodes
    ensures OnDisk(f.inodes, dd, n) ==> (OnDisk(g.inodes, dd, n) <==> Empty(f, n, Roots(ss)) == {})
  {
    hide Filled;
    AddrsKept(sb, f, g, n, ss);
  }

  lemma TouchedIs(off: nat, len: nat)
    requires off + len <= MAXBYTES
    ensures Touched(off, len) == Paths(off / BSIZE, EndBlock(off, len))
  {
  }

  lemma ContentsSlice(f: Fs, n: nat, off: nat, len: nat)
    requires InodesOk(f.inodes) && n in f.inodes && off + len <= f.inodes[n].size <= MAXBYTES
    ensures Slice(f, n, off, len) == Contents(f, n)[off..off + len]
  {
    var a, b := Slice(f, n, off, len), Contents(f, n)[off..off + len];
    forall i | 0 <= i < len
      ensures a[i] == b[i]
    {
      assert b[i] == ByteOf(f, n, 0 + (off + i));
    }
  }

  /** Reading from the start, cnt bytes at a time, until a read returns nothing, as
      cat does: the whole file, unless some block of it cannot be mapped. */
  method ReadToEnd(file: OpenFile, cnt: uint) returns (out: seq<byte>, panicked: bool)
    requires Owned(file.fs.sb, file.fs.Now()) && file.n in file.fs.inodes && file.fs.inodes[file.n].size <= MAXBYTES
    requires file.readable && file.off == 0 && 0 < cnt < 0x8000_0000
    modifies file`off, file.fs`disk, file.fs`inodes, file.fs`owner, file.fs`logged
    ensures InodesOk(old(file.fs.inodes)) && file.fs.sb.Ok() && file.fs.sb.size <= |old(file.fs.disk)|
    ensures panicked <==> Stuck(file.fs.sb, old(file.fs.Now()), file.n, Touched(0, old(file.fs.inodes)[file.n].size), file.fs.outstanding)
    ensures !panicked ==> out == Contents(old(file.fs.Now()), file.n)
  {
    hide Owned, Extended, Contents, Touched, Stuck, Empty, Filled, SameBytes, InodesOk;
    ghost var f := file.fs.Now();
    OwnedFacts(file.fs.sb, f);
    ghost var size := file.fs.inodes[file.n].size;
    SoFarStart(file.fs.sb, f, file.n, file.fs.outstanding);
    out := [];
    var r := 1;
    while r != 0
      invariant 0 <= r && file.off <= size && (r == 0 ==> file.off == size)
      invariant SoFar(file.fs.sb, f, file.fs.Now(), file.n, file.off, out, file.fs.outstanding)
      decreases size - file.off, r
    {
      ghost var g, off := file.fs.Now(), file.off;
      SoFarFacts(file.fs.sb, f, g, file.n, off, out, file.fs.outstanding);
      var data, stop;
      r, data, stop := file.Read(cnt);
      if stop {
        SoFarStuck(file.fs.sb, f, g, file.n, off, r, out, file.fs.outstanding);
        return [], true;
      }
      SoFarMore(file.fs.sb, f, g, file.fs.Now(), file.n, off, r, out, data, file.fs.outstanding);
      out := out + data;
    }
    SoFarFacts(file.fs.sb, f, file.fs.Now(), file.n, size, out, file.fs.outstanding);
    panicked := false;
  }

  /** Reads up to off have turned f into g and returned out. */
  ghost predicate SoFar(sb: Super, f: Fs, g: Fs, n: nat, off: nat, out: seq<byte>, outstanding: nat) {
    && n in f.inodes && InodesOk(f.inodes) && off <= f.inodes[n].size <= MAXBYTES
    && Extended(sb, f, g, n, Touched(0, off)) && out == Contents(f, n)[..off]
    && (outstanding < 1 ==> Empty(f, n, Touched(0, off)) == {} && g == f)
  }

  lemma SoFarStart(sb: Super, f: Fs, n: nat, outstanding: nat)
    requires Owned(sb, f) && n in f.inodes && f.inodes[n].size <= MAXBYTES
    ensures SoFar(sb, f, f, n, 0, [], outstanding)
  {
    ExtendedNothing(sb, f, n, {});
    assert Empty(f, n, {}) == {};
    hide Owned;
    assert Contents(f, n)[..0] == [];
  }

  lemma SoFarFacts(sb: Super, f: Fs, g: Fs, n: nat, off: nat, out: seq<byte>, outstanding: nat)
    requires SoFar(sb, f, g, n, off, out, outstanding)
    ensures Owned(sb, g) && n in g.inodes && g.inodes[n].size == f.inodes[n].size && sb.Ok() && sb.size <= |f.disk|
    ensures InodesOk(g.inodes) && sb.size <= |g.disk|
    ensures !Stuck(sb, f, n, Touched(0, off), outstanding)
    ensures off == f.inodes[n].size ==> out == Contents(f, n)
  {
    hide Owned, Filled, Touched, Stuck;
    ExtendedIs(sb, f, g, n, Touched(0, off));
    StuckThen(sb, f, g, n, Touched(0, off), {}, outstanding);
    assert off == f.inodes[n].size ==> Contents(f, n)[..off] == Contents(f, n);
  }

  lemma SoFarStuck(sb: Super, f: Fs, g: Fs, n: nat, off: nat, r: nat, out: seq<byte>, outstanding: nat)
    requires SoFar(sb, f, g, n, off, out, outstanding) && InodesOk(g.inodes) && n in g.inodes && sb.Ok() && sb.size <= |g.disk|
    requires off + r <= f.inodes[n].size && Stuck(sb, g, n, Touched(off, r), outstanding)
    ensures sb.size <= |f.disk| && Stuck(sb, f, n, Touched(0, f.inodes[n].size), outstanding)
  {
    hide Owned, Filled, Touched, Stuck, Contents, InodesOk, SameBytes, SameSizes, Empty;
    var size := f.inodes[n].size;
    TouchedPart(0, off, r, size);
    ExtendedIs(sb, f, g, n, Touched(0, off));
    StuckThen(sb, f, g, n, Touched(0, off), Touched(off, r), outstanding);
    StuckMore(sb, f, n, Touched(0, off) + Touched(off, r), Touched(0, size), outstanding);
  }

  /** Fewer bytes, fewer slots. */
  lemma TouchedPart(a: nat, x: nat, y: nat, len: nat)
    requires x + y <= len && a + len <= MAXBYTES
    ensures Touched(a, x) + Touched(a + x, y) <= Touched(a, len)
  {
    TouchedLess(a, x, a, len);
    TouchedLess(a + x, y, a, len);
  }

  lemma TouchedLess(a: nat, x: nat, b: nat, y: nat)
    requires b <= a && a + x <= b + y <= MAXBYTES
    ensures Touched(a, x) <= Touched(b, y)
  {
    if x > 0 {
      assert (a + x - 1) / BSIZE <= (b + y - 1) / BSIZE && b / BSIZE <= a / BSIZE;
      PathsMono(a / BSIZE, EndBlock(a, x), b / BSIZE, EndBlock(b, y));
    }
  }

  lemma SoFarMore(sb: Super, f: Fs, g: Fs, h: Fs, n: nat, off: nat, r: nat, out: seq<byte>, data: seq<byte>, outstanding: nat)
    requires SoFar(sb, f, g, n, off, out, outstanding) && InodesOk(g.inodes) && n in g.inodes && sb.Ok() && sb.size <= |g.disk|
    requires g.inodes[n].size == f.inodes[n].size && off + r <= f.inodes[n].size
    requires Extended(sb, g, h, n, Touched(off, r)) && data == Contents(g, n)[off..off + r]
    requires !Stuck(sb, g, n, Touched(off, r), outstanding)
    requires Empty(g, n, Touched(off, r)) == {} ==> h == g
    ensures SoFar(sb, f, h, n, off + r, out + data, outstanding)
  {
    hide Owned, Filled, Touched, Stuck, SameSizes, Contents, InodesOk;
    EmptyNoStuck(sb, g, n, Touched(off, r), outstanding);
    SameContents(f, g, n);
    PartsJoin(Contents(f, n), off, r);
    if r == 0 {
      NoSlots(g, n, off);
    } else {
      TouchedJoin(0, off, r);
      ExtendedBoth(sb, f, g, h, n, Touched(0, off), Touched(off, r));
      if outstanding < 1 {
        assert Empty(f, n, Touched(0, off) + Touched(off, r)) == {};
      }
    }
  }

  lemma PartsJoin(c: seq<byte>, off: nat, r: nat)
    requires off + r <= |c|
    ensures c[..off] + c[off..off + r] == c[..off + r]
  {
  }

  lemma SameContents(f: Fs, g: Fs, n: nat)
    requires SameBytes(f, g) && n in f.inodes && n in g.inodes && g.inodes[n].size == f.inodes[n].size <= MAXBYTES
    ensures Contents(g, n) == Contents(f, n)
  {
    SameSlice(f, g, n, 0, f.inodes[n].size);
  }

  /** filewrite after i of w bytes: f has become g. */
  ghost predicate ChunksAt(sb: Super, f: Fs, g: Fs, n: nat, start: nat, i: nat, w: nat, src: seq<byte>) {
    && i <= w <= |src| && (w > 0 ==> start + w <= MAXBYTES)
    && n in f.inodes && n in g.inodes && InodesOk(g.inodes) && sb.Ok() && sb.size <= |g.disk|
    && start + i <= g.inodes[n].size
    && Filled(sb, f, g, n, Touched(start, i)) && Spliced(f, g, n, start, src[..i]) && Resized(f, g, n, start + i)
    && |Empty(g, n, Touched(start + i, w - i))| <= |FreeBlocks(sb, g.disk)|
  }

  /** ... and the disk has its inode once it has grown by what was written. */
  ghost predicate KeptUp(f: Fs, g: Fs, dd: map<nat, Inode>, ee: map<nat, Inode>, n: nat, start: nat, i: nat) {
    && n in f.inodes
    && if i > 0 && start + i > f.inodes[n].size then OnDisk(g.inodes, ee, n) else ee == dd
  }

  lemma FootprintNone(sb: Super, f: Fs, n: nat)
    requires sb.Ok() && sb.size <= |f.disk|
    ensures Footprint(sb, {}, n, Taken(sb, f, f))
  {
    assert Taken(sb, f, f) == {};
    assert CoveredBy(sb, {}, n, {}, {}, {});
  }

  lemma ChunksStart(sb: Super, f: Fs, g: Fs, n: nat, start: nat, src: seq<byte>)
    requires Filled(sb, f, g, n, {}) && n in g.inodes && start <= g.inodes[n].size && g.disk == f.disk
    requires Spliced(f, g, n, start, []) && Resized(f, g, n, start)
    requires InodesOk(f.inodes) && InodesOk(g.inodes) && sb.Ok() && sb.size <= |f.disk|
    requires forall ss: set<Slot> :: Empty(g, n, ss) == Empty(f, n, ss)
    requires |Empty(f, n, Touched(start, Fitting(start, |src|)))| <= |FreeBlocks(sb, f.disk)|
    ensures ChunksAt(sb, f, g, n, start, 0, Fitting(start, |src|), src)
  {
    hide Filled, Spliced, Empty, FreeBlocks, Fitting;
    assert Touched(start, 0) == {};
    assert src[..0] == [];
  }

  lemma ChunksReady(sb: Super, f: Fs, g: Fs, n: nat, start: nat, i: nat, n1: nat, w: nat, src: seq<byte>)
    requires ChunksAt(sb, f, g, n, start, i, w, src) && 0 < n1 && (i < w ==> i + n1 <= w)
    ensures Owned(sb, g) && n in g.inodes && InodesOk(g.inodes) && sb.Ok() && sb.size <= |g.disk| && start + i <= g.inodes[n].size
    ensures i < w ==> start + i + n1 <= MAXBYTES && |Empty(g, n, Touched(start + i, n1))| <= |FreeBlocks(sb, g.disk)|
  {
    hide Owned, Filled, Spliced, Empty, FreeBlocks, Touched;
    FilledParts(sb, f, g, n, Touched(start, i));
    if i < w {
      RoomBefore(sb, g, n, start + i, n1, start + w);
    }
  }

  lemma ChunkDone(sb: Super, f: Fs, g: Fs, h: Fs, n: nat, start: nat, i: nat, n1: nat, w: nat, src: seq<byte>)
    requires ChunksAt(sb, f, g, n, start, i, w, src) && i + n1 <= w && 0 < n1
    requires Filled(sb, g, h, n, Touched(start + i, n1))
    requires Spliced(g, h, n, start + i, src[i..i + n1]) && Resized(g, h, n, start + i + n1)
    ensures ChunksAt(sb, f, h, n, start, i + n1, w, src)
  {
    hide Filled, Owned, Paths, Empty, FreeBlocks, EndBlock, Spliced, Touched;
    assert src[..i] + src[i..i + n1] == src[..i + n1];
    SplicedBoth(f, g, h, n, start, src[..i], src[i..i + n1]);
    FilledParts(sb, g, h, n, Touched(start + i, n1));
    OwnedFacts(sb, h);
    TouchedJoin(start, i, n1);
    FilledBoth(sb, f, g, h, n, Touched(start, i), Touched(start + i, n1));
    RoomAfter(sb, g, h, n, start + i, n1, start + w);
  }

  lemma KeptUpStep(f: Fs, g: Fs, h: Fs, dd: map<nat, Inode>, ee: map<nat, Inode>, ff: map<nat, Inode>, n: nat, start: nat, i: nat, n1: nat)
    requires KeptUp(f, g, dd, ee, n, start, i) && 0 < n1
    requires Resized(f, g, n, start + i) && start + i <= g.inodes[n].size && n in h.inodes
    requires ff == if start + i + n1 > g.inodes[n].size then ee[n := h.inodes[n]] else ee
    ensures KeptUp(f, h, dd, ff, n, start, i + n1)
  {
  }

  lemma ChunksAll(sb: Super, f: Fs, g: Fs, dd: map<nat, Inode>, ee: map<nat, Inode>, n: nat, start: nat, w: nat, src: seq<byte>)
    requires ChunksAt(sb, f, g, n, start, w, w, src) && KeptUp(f, g, dd, ee, n, start, w)
    ensures Filled(sb, f, g, n, Touched(start, w)) && Spliced(f, g, n, start, src[..w]) && Resized(f, g, n, start + w)
    ensures InodesOk(f.inodes)
    ensures OnDisk(f.inodes, dd, n) ==>
              (OnDisk(g.inodes, ee, n) <==>
                 if w > 0 && start + w > f.inodes[n].size then true
                 else start <= f.inodes[n].size && Empty(f, n, Roots(Touched(start, w))) == {})
  {
    hide Filled, Spliced, Touched, Empty, FreeBlocks, Roots;
    AddrsKept(sb, f, g, n, Touched(start, w));
  }

  /** Write with holes: a write at any offset from which it fits the largest
      file leaves the old contents, zeros in the gap, and the data, as one flat
      overlay, and changes no other file. */
  lemma WriteIsOverlay(f: Fs, g: Fs, n: nat, off: nat, src: seq<byte>)
    requires TailZero(f) && n in f.inodes && f.inodes[n].size <= MAXBYTES && off + |src| <= MAXBYTES
    requires Spliced(f, g, n, off, src[..Fitting(off, |src|)]) && Resized(f, g, n, off + Fitting(off, |src|))
    ensures TailZero(g) && n in g.inodes && g.inodes[n].size <= MAXBYTES
    ensures Contents(g, n) == Overlay(Contents(f, n), off, src)
    ensures forall k :: k in f.inodes && k != n && f.inodes[k].size <= MAXBYTES ==>
              k in g.inodes && g.inodes[k].size == f.inodes[k].size && Contents(g, k) == Contents(f, k)
  {
    assert src[..|src|] == src;
    SpliceIsOverlay(f, g, n, off, src);
    SpliceKeepsOthers(f, g, n, off, src);
  }

  /** Reading a hole maps blocks, and leaves every file as it was. */
  lemma ReadKeepsFiles(sb: Super, f: Fs, g: Fs, n: nat, ss: set<Slot>)
    requires TailZero(f) && Extended(sb, f, g, n, ss)
    ensures TailZero(g)
    ensures forall k :: k in f.inodes && f.inodes[k].size <= MAXBYTES ==>
              k in g.inodes && g.inodes[k].size == f.inodes[k].size && Contents(g, k) == Contents(f, k)
  {
    hide Filled, Extended;
    ExtendedParts(sb, f, g, n, ss);
    forall k | k in f.inodes && f.inodes[k].size <= MAXBYTES
      ensures k in g.inodes && g.inodes[k].size == f.inodes[k].size && Contents(g, k) == Contents(f, k)
    {
      forall i | 0 <= i < f.inodes[k].size
        ensures Contents(g, k)[i] == Contents(f, k)[i]
      {
        assert ByteOf(g, k, 0 + i) == ByteOf(f, k, 0 + i);
      }
    }
  }

  /** What readi returns right after a write at the same place. */
  lemma ReadAfterWrite(f: Fs, g: Fs, n: nat, off: nat, src: seq<byte>)
    requires Spliced(f, g, n, off, src) && n in g.inodes && off + |src| <= MAXBYTES
    ensures Slice(g, n, off, |src|) == src
  {
    forall i | 0 <= i < |src|
      ensures Slice(g, n, off, |src|)[i] == src[i]
    {
      assert ByteOf(g, n, off + i) == src[off + i - off];
    }
  }

  /** A slot whose block lies outside the written ones is as it was. */
  lemma {:induction false} OffPath(lo: nat, hi: nat, k: nat)
    requires hi <= MAXFILE && k < MAXFILE && !(lo <= k < hi)
    ensures SlotOf(k) !in Paths(lo, hi)
    decreases hi - lo
  {
    if lo < hi {
      OffPath(lo + 1, hi, k);
      if SlotOf(k) in Path(lo) {
        SlotOfInjective(k, lo);
      }
    }
  }

  /** The blocks of a hole that a write jumped over are still unmapped, so that a
      read there has nothing to stand on. */
  lemma GapStaysEmpty(sb: Super, f: Fs, g: Fs, n: nat, off: nat, len: nat, at: nat, cnt: nat)
    requires 0 < len && off + len <= MAXBYTES && 0 < cnt && at + cnt <= MAXBYTES && at / BSIZE < off / BSIZE
    requires Filled(sb, f, g, n, Touched(off, len))
    requires Ptr(f, Place(n, SlotOf(at / BSIZE))) == 0
    ensures InodesOk(g.inodes) && n in g.inodes && Empty(g, n, Touched(at, cnt)) != {}
  {
    var s := SlotOf(at / BSIZE);
    OffPath(off / BSIZE, EndBlock(off, len), at / BSIZE);
    assert PlaceOk(f.inodes, Place(n, s));
    assert s in Path(at / BSIZE) && at / BSIZE < EndBlock(at, cnt);
    assert s in Empty(g, n, Touched(at, cnt));
  }

  lemma OneByte(at: nat)
    requires at / BSIZE < NDIRECT
    ensures Fitting(at, 1) == 1 && Touched(at, 1) == {Direct(at / BSIZE)}
  {
    assert Paths(at / BSIZE + 1, EndBlock(at, 1)) == {};
  }

  lemma OneSlot(f: Fs, n: nat, s: Slot)
    requires InodesOk(f.inodes) && n in f.inodes
    ensures |Empty(f, n, {s})| <= 1
  {
    SubsetSize(Empty(f, n, {s}), {s});
  }

  /** A new file, lseek two blocks past its end, one byte written, and a read back
      in the gap: the kernel panics when no operation is outstanding. */
  method ReadInGap(v: Volume, n: nat) returns (panicked: bool)
    requires Owned(v.sb, v.Now()) && n in v.inodes && v.inodes[n] == BlankInode()
    requires v.outstanding == 0 && |FreeBlocks(v.sb, v.disk)| >= 2
    modifies v
    ensures panicked
  {
    hide Owned, Spliced, FreeBlocks, Empty, Fitting, Touched, BlankInode;
    ghost var f := v.Now();
    OwnedFacts(v.sb, f);
    OneByte(1024);
    OneSlot(f, n, Direct(2));
    var file := new OpenFile(v, n, true, true);
    var _ := file.Seek(1024);
    var _, _ := file.Write([65]);
    ghost var g := v.Now();
    var _ := file.Seek(-1025);
    GapStaysEmpty(v.sb, f, g, n, 1024, 1, 0, 1);
    OneByte(0);
    OneSlot(g, n, Direct(0));
    var _, _, stop := file.Read(1);
    panicked := stop;
  }

  /** lseek and empty writes, each within the kernel stack, bring the size of a
      file to any mark without a block. */
  method Raise(file: OpenFile, mark: uint)
    requires Owned(file.fs.sb, file.fs.Now()) && file.n in file.fs.inodes && file.writable
    requires file.off == file.fs.inodes[file.n].size <= mark
    modifies file, file.fs`disk, file.fs`inodes, file.fs`dinodes, file.fs`owner, file.fs`logged, file.fs`outstanding
    ensures Filled(file.fs.sb, old(file.fs.Now()), file.fs.Now(), file.n, {}) && file.fs.outstanding == old(file.fs.outstanding)
    ensures file.n in file.fs.inodes && file.off == file.fs.inodes[file.n].size == mark
  {
    hide Owned, Spliced, FreeBlocks, Empty, Fitting, Touched, Filled;
    ghost var f := file.fs.Now();
    OwnedFacts(file.fs.sb, f);
    FilledNothing(file.fs.sb, f, file.n, {});
    while file.off < mark
      invariant Owned(file.fs.sb, file.fs.Now()) && file.n in file.fs.inodes && file.off == file.fs.inodes[file.n].size <= mark
      invariant Filled(file.fs.sb, f, file.fs.Now(), file.n, {}) && file.fs.outstanding == old(file.fs.outstanding)
      decreases mark - file.off
    {
      ghost var g := file.fs.Now();
      OwnedFacts(file.fs.sb, g);
      var _ := file.Seek(if mark - file.off < KSTACKSIZE then mark - file.off else KSTACKSIZE - 1);
      EmptyWrite(g, file.n, file.off);
      var none: seq<byte> := [];
      assert |none| == 0;
      var _, overrun := file.Write(none);
      assert !overrun;
      FilledParts(file.fs.sb, g, file.fs.Now(), file.n, {});
      FilledBoth(file.fs.sb, f, g, file.fs.Now(), file.n, {}, {});
    }
  }

  lemma EmptyWrite(f: Fs, n: nat, off: nat)
    requires InodesOk(f.inodes) && n in f.inodes
    ensures Fitting(off, 0) == 0 && Touched(off, 0) == {} && |Empty(f, n, {})| == 0
  {
    assert Empty(f, n, {}) == {};
  }

  /** A size past the largest file, and a read of the first byte that no file can
      hold: bmap panics, whether an operation is outstanding or not. */
  method ReadPastLargest(v: Volume, n: nat) returns (panicked: bool)
    requires Owned(v.sb, v.Now()) && n in v.inodes && v.inodes[n] == BlankInode()
    modifies v
    ensures panicked
  {
    hide Owned, Spliced, FreeBlocks, Empty, Fitting, Touched, Filled, Stuck;
    var file := new OpenFile(v, n, true, true);
    Raise(file, MAXBYTES + 1);
    FilledParts(v.sb, old(v.Now()), v.Now(), n, {});
    var _ := file.Seek(-1);
    var _, _, stop := file.Read(1);
    panicked := stop;
  }
}
