/** How many blocks one operation logs: on which disks a chunk of filewrite, and
    itrunc, stay within the MAXOPBLOCKS that begin_op sets aside. */
module LogDemand {
  import opened Blocks
  import opened FsModel
  import opened FileSystem
  import opened OpenFiles
  import DiskLog

  /** The bits of the data blocks lie in more than two bitmap blocks. */
  predicate Wide(sb: Super) {
    sb.size > 0 && sb.datastart / BPB + 2 <= (sb.size - 1) / BPB
  }

  /** They do on the disk that mkfs makes: FSSIZE blocks, LOGSIZE of them for the
      log, 26 for inodes and 49 for the bitmap. */
  lemma MkfsIsWide()
    ensures var sb := Super(200000, 2 + DiskLog.LOGSIZE, 2 + DiskLog.LOGSIZE + 26, 2 + DiskLog.LOGSIZE + 26 + 49); sb.Ok() && Wide(sb)
  {
    assert 199999 / 4096 == 48 && 107 / 4096 == 0;
  }

  /** Where they do not, every chunk fits, whatever it allocates. */
  lemma NarrowFits(sb: Super, lg: set<nat>, n: nat, bs: set<nat>)
    requires sb.Ok() && Footprint(sb, lg, n, bs) && (forall b :: b in bs ==> sb.Data(b)) && InodeBlock(sb, n) < sb.bmapstart
    ensures !Wide(sb) ==> |lg| <= DiskLog.MAXOPBLOCKS
  {
    hide Wide, Footprint, BitBlocks;
    FootprintSize(sb, lg, n, bs);
    if !Wide(sb) {
      NarrowBits(sb, bs);
    }
  }

  lemma NarrowBits(sb: Super, bs: set<nat>)
    requires sb.Ok() && !Wide(sb) && forall b :: b in bs ==> sb.Data(b)
    ensures |BitBlocks(sb, bs)| <= 2
  {
    var first := sb.BitBlock(sb.datastart);
    forall b | b in bs
      ensures first <= sb.BitBlock(b) <= first + 1
    {
      QuotientMono(sb.datastart, b);
      QuotientMono(b, sb.size - 1);
    }
    SubsetSize(BitBlocks(sb, bs), {first, first + 1});
  }

  lemma QuotientMono(a: nat, b: nat)
    requires a <= b
    ensures a / BPB <= b / BPB
  {
    assert a == BPB * (a / BPB) + a % BPB && b == BPB * (b / BPB) + b % BPB;
  }

  /** Seven data blocks with their bits in three bitmap blocks. */
  function Seven(sb: Super): (bs: seq<nat>)
    ensures |bs| == 7
  {
    var q := sb.datastart / BPB;
    [sb.datastart, BPB * (q + 1), BPB * (q + 1) + 1, BPB * (q + 1) + 2, BPB * (q + 1) + 3, BPB * (q + 1) + 4, BPB * (q + 2)]
  }

  lemma SevenLie(sb: Super)
    requires sb.Ok() && Wide(sb)
    ensures var q := sb.datastart / BPB;
            BPB * q <= sb.datastart < BPB * (q + 1) && BPB * (q + 1) + 4 < BPB * (q + 2) < sb.size
  {
    var q, r := sb.datastart / BPB, (sb.size - 1) / BPB;
    assert sb.datastart == BPB * q + sb.datastart % BPB;
    assert sb.size - 1 == BPB * r + (sb.size - 1) % BPB;
    MulMono(BPB, q + 2, r);
  }

  lemma SevenAre(sb: Super)
    requires sb.Ok() && Wide(sb)
    ensures forall i :: 0 <= i < 7 ==> sb.Data(Seven(sb)[i])
    ensures forall i, j :: 0 <= i < j < 7 ==> Seven(sb)[i] < Seven(sb)[j]
  {
    hide Wide;
    SevenLie(sb);
  }

  lemma SevenBits(sb: Super)
    ensures var x := sb.BitBlock(sb.datastart);
            sb.BitBlock(Seven(sb)[0]) == x && sb.BitBlock(Seven(sb)[1]) == x + 1 && sb.BitBlock(Seven(sb)[6]) == x + 2
  {
    var q := sb.datastart / BPB;
    DivIs(BPB * (q + 1), BPB, q + 1, 0);
    DivIs(BPB * (q + 2), BPB, q + 2, 0);
  }

  ghost function FirstOf(bs: seq<nat>, k: nat): (r: set<nat>)
    requires k <= |bs|
  {
    set i: nat | i < k :: bs[i]
  }

  lemma {:induction false} FirstSize(bs: seq<nat>, k: nat)
    requires k <= |bs| && forall i, j :: 0 <= i < j < |bs| ==> bs[i] < bs[j]
    ensures |FirstOf(bs, k)| == k
  {
    if k > 0 {
      FirstSize(bs, k - 1);
      assert FirstOf(bs, k) == FirstOf(bs, k - 1) + {bs[k - 1]};
    } else {
      assert FirstOf(bs, 0) == {};
    }
  }

  /** A disk with every bit set. */
  function FullDisk(sb: Super): (d: seq<Block>) {
    seq(sb.size, _ => seq(BSIZE, _ => 255))
  }

  lemma AllUsed(sb: Super)
    requires sb.Ok()
    ensures forall b: nat :: b < sb.size ==> InUse(sb, FullDisk(sb), b)
  {
    forall b: nat | b < sb.size
      ensures InUse(sb, FullDisk(sb), b)
    {
      BitBlockIsMeta(sb, b);
      assert Bit(255, b % 8);
    }
  }

  lemma FreedMore(sb: Super, d: seq<Block>, e: seq<Block>, g: seq<Block>, bs: set<nat>, b: nat)
    requires OnlyFreed(sb, d, e, bs) && OnlyFreed(sb, e, g, {b})
    ensures OnlyFreed(sb, d, g, bs + {b})
  {
    hide InUse;
  }

  /** A volume with a blank inode 1 and just those seven blocks free. */
  method SevenFree(sb: Super) returns (v: Volume)
    requires sb.Ok() && Wide(sb)
    ensures fresh(v) && v.sb == sb && v.outstanding == 0 && v.inodes == map[1 := BlankInode()]
    ensures Owned(sb, v.Now()) && FreeBlocks(sb, v.disk) == FirstOf(Seven(sb), 7)
  {
    hide InUse, OnlyFreed, Owned, TailZero, Seven, Wide, FullDisk;
    var d := FullDisk(sb);
    AllUsed(sb);
    SevenAre(sb);
    FullStart(sb);
    v := new Volume(sb, d);
    v.outstanding := 1;
    var k := 0;
    while k < 7
      invariant 0 <= k <= 7 && v.sb == sb && v.outstanding == 1 && v.inodes == map[] && v.owner == map[]
      invariant OnlyFreed(sb, d, v.disk, FirstOf(Seven(sb), k))
    {
      ghost var e := v.disk;
      StillUsed(sb, d, e, k);
      v.Bfree(Seven(sb)[k]);
      FreedMore(sb, d, e, v.disk, FirstOf(Seven(sb), k), Seven(sb)[k]);
      assert FirstOf(Seven(sb), k + 1) == FirstOf(Seven(sb), k) + {Seven(sb)[k]};
      k := k + 1;
    }
    FreeAre(sb, v.disk);
    v.Ialloc(1);
    v.outstanding := 0;
  }

  lemma FullStart(sb: Super)
    requires sb.Ok()
    ensures |FullDisk(sb)| == sb.size && OnlyFreed(sb, FullDisk(sb), FullDisk(sb), FirstOf(Seven(sb), 0))
  {
    hide InUse;
  }

  lemma StillUsed(sb: Super, d: seq<Block>, e: seq<Block>, k: nat)
    requires k < 7 && OnlyFreed(sb, d, e, FirstOf(Seven(sb), k)) && Wide(sb) && d == FullDisk(sb)
    ensures sb.size <= |e| && sb.Data(Seven(sb)[k]) && InUse(sb, e, Seven(sb)[k])
  {
    SevenAre(sb);
    AllUsed(sb);
    hide InUse, Seven, FullDisk;
    assert Seven(sb)[k] !in FirstOf(Seven(sb), k);
  }

  lemma FreeAre(sb: Super, e: seq<Block>)
    requires OnlyFreed(sb, FullDisk(sb), e, FirstOf(Seven(sb), 7)) && Wide(sb)
    ensures sb.size <= |e| && FreeBlocks(sb, e) == FirstOf(Seven(sb), 7)
    ensures Owned(sb, Fs(e, map[], map[])) && TailZero(Fs(e, map[], map[]))
  {
    SevenAre(sb);
    AllUsed(sb);
    hide InUse, Seven, FullDisk;
    EmptyVolume(sb, e);
  }

  const ACROSS: nat := 135681

  ghost function AcrossSlots(): (ss: set<Slot>) {
    {Double, Middle(0), Middle(1), InDouble(0, 126), InDouble(0, 127), InDouble(1, 0), InDouble(1, 1)}
  }

  lemma AcrossPaths()
    ensures Paths(265, 269) == AcrossSlots()
  {
    assert Paths(269, 269) == {};
    assert Path(265) == {Double, Middle(0), InDouble(0, 126)};
    assert Path(266) == {Double, Middle(0), InDouble(0, 127)};
    assert Path(267) == {Double, Middle(1), InDouble(1, 0)};
    assert Path(268) == {Double, Middle(1), InDouble(1, 1)};
    hide Path;
    assert Paths(267, 269) == Path(267) + Path(268);
    assert Paths(265, 269) == Path(265) + Path(266) + Paths(267, 269);
  }

  /** 1536 bytes from there on need seven blocks: four for the data, and three for
      the index. */
  lemma AcrossNeeds(f: Fs, n: nat)
    requires InodesOk(f.inodes) && n in f.inodes && forall s: Slot :: s.Ok() ==> Ptr(f, Place(n, s)) == 0
    ensures |Empty(f, n, Touched(ACROSS, MAXCHUNK))| == 7
  {
    hide Ptr, Paths;
    assert Touched(ACROSS, MAXCHUNK) == Paths(265, 269);
    AcrossPaths();
    assert Empty(f, n, AcrossSlots()) == AcrossSlots();
    assert |AcrossSlots()| == 7;
  }

  /** On a disk whose data bits lie in three bitmap blocks or more, one chunk of a
      write to a new file logs more than begin_op sets aside. */
  method Overdraw(sb: Super) returns (v: Volume)
    requires sb.Ok() && Wide(sb)
    ensures v.sb == sb && |v.logged| > DiskLog.MAXOPBLOCKS
  {
    hide Owned, FreeBlocks, Empty, Touched, Filled, Spliced, Resized, Footprint, Wide, Seven, Taken, FirstOf, BitBlocks;
    v := SevenFree(sb);
    ghost var f := v.Now();
    var file := new OpenFile(v, 1, true, true);
    Raise(file, ACROSS);
    ghost var g := v.Now();
    BlankRaised(sb, f, g, 1);
    AcrossNeeds(g, 1);
    SevenTaken(sb);
    var _ := file.WriteChunk(seq(MAXCHUNK, _ => 65));
    AllTaken(sb, g, v.Now(), 1);
    FootprintSize(sb, v.logged, 1, Taken(sb, g, v.Now()));
  }

  lemma BlankRaised(sb: Super, f: Fs, g: Fs, n: nat)
    requires Filled(sb, f, g, n, {}) && f.inodes[n] == BlankInode()
    ensures sb.Ok() && sb.size <= |f.disk| && sb.size <= |g.disk| && FreeBlocks(sb, g.disk) == FreeBlocks(sb, f.disk)
    ensures Owned(sb, g) && n in g.inodes && InodesOk(g.inodes) && forall s: Slot :: s.Ok() ==> Ptr(g, Place(n, s)) == 0
  {
    assert Empty(f, n, {}) == {};
    hide Owned, FreeBlocks;
    OwnedFacts(sb, f);
    FilledParts(sb, f, g, n, {});
    SameSize(FreeBlocks(sb, g.disk), FreeBlocks(sb, f.disk));
    forall s: Slot | s.Ok()
      ensures Ptr(g, Place(n, s)) == 0
    {
      assert PlaceOk(f.inodes, Place(n, s)) && Ptr(f, Place(n, s)) == 0;
    }
  }

  lemma SameSize<T>(a: set<T>, b: set<T>)
    requires a <= b && |a| == |b|
    ensures a == b
  {
    assert b == a + (b - a);
  }

  lemma SevenTaken(sb: Super)
    requires sb.Ok() && Wide(sb)
    ensures |FirstOf(Seven(sb), 7)| == 7 && |BitBlocks(sb, FirstOf(Seven(sb), 7))| >= 3
    ensures (forall b :: b in FirstOf(Seven(sb), 7) ==> sb.Data(b)) && InodeBlock(sb, 1) < sb.bmapstart
  {
    SevenAre(sb);
    SevenBits(sb);
    hide Seven;
    FirstSize(Seven(sb), 7);
    var x, bs := sb.BitBlock(sb.datastart), FirstOf(Seven(sb), 7);
    assert Seven(sb)[0] in bs && Seven(sb)[1] in bs && Seven(sb)[6] in bs;
    SubsetSize({x, x + 1, x + 2}, BitBlocks(sb, bs));
  }

  lemma AllTaken(sb: Super, f: Fs, g: Fs, n: nat)
    requires Filled(sb, f, g, n, Touched(ACROSS, MAXCHUNK)) && InodesOk(f.inodes) && sb.Ok() && sb.size <= |f.disk|
    requires |Empty(f, n, Touched(ACROSS, MAXCHUNK))| == 7 && |FreeBlocks(sb, f.disk)| == 7
    ensures sb.size <= |g.disk| && Taken(sb, f, g) == FreeBlocks(sb, f.disk)
  {
    hide Owned, FreeBlocks, Empty, Touched;
    FilledParts(sb, f, g, n, Touched(ACROSS, MAXCHUNK));
  }

  lemma BitsAbove(sb: Super, bs: set<nat>)
    ensures forall x :: x in BitBlocks(sb, bs) ==> x >= sb.bmapstart
  {
  }

  /** itrunc stays within MAXOPBLOCKS exactly when what it frees has its bits in
      fewer bitmap blocks than that. */
  lemma TruncFits(sb: Super, f: Fs, n: nat, lg: set<nat>)
    requires Owned(sb, f) && n in f.inodes && InodesOk(f.inodes) && InodeBlock(sb, n) < sb.bmapstart
    requires lg == BitBlocks(sb, BlocksOf(f, n, TruncSlots())) + {InodeBlock(sb, n)}
    ensures |lg| <= DiskLog.MAXOPBLOCKS <==> |BitBlocks(sb, BlocksOf(f, n, TruncSlots()))| < DiskLog.MAXOPBLOCKS
  {
    hide Owned, BlocksOf, TruncSlots, BitBlocks, InodesOk;
    BitsAbove(sb, BlocksOf(f, n, TruncSlots()));
    assert InodeBlock(sb, n) !in BitBlocks(sb, BlocksOf(f, n, TruncSlots()));
  }
}
