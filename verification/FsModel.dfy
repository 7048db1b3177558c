/** The block map of the file system as a value: which block each slot of each
    inode's tree points at, who owns each block, and the bytes of each file. */
module FsModel {
  import opened Blocks

  const NDIRECT := 11
  const NINDIRECT := 128
  const DINDIRECT := NINDIRECT * NINDIRECT
  const MAXFILE := NDIRECT + NINDIRECT + DINDIRECT
  const MAXBYTES := MAXFILE * BSIZE
  const BPB := BSIZE * 8

  /** The superblock fields in use; data blocks are datastart .. size - 1. */
  datatype Super = Super(size: nat, inodestart: nat, bmapstart: nat, datastart: nat)
  {
    ghost predicate Ok() {
      && 0 < inodestart < bmapstart
      && bmapstart + size / BPB < datastart < size < UINT_LIMIT
    }

    /** The bitmap block that holds the bit of block b. */
    function BitBlock(b: nat): (r: nat) {
      bmapstart + b / BPB
    }

    ghost predicate Data(b: nat) {
      datastart <= b < size
    }
  }

  /** addrs: NDIRECT direct blocks, one single and one double indirect block. */
  datatype Inode = Inode(size: nat, addrs: seq<uint>)

  /** The pointers of an inode's tree. */
  datatype Slot =
    | Direct(i: nat)
    | Single
    | InSingle(i: nat)
    | Double
    | Middle(i: nat)
    | InDouble(i: nat, j: nat)
  {
    predicate Ok() {
      match this
      case Direct(i) => i < NDIRECT
      case InSingle(i) => i < NINDIRECT
      case Middle(i) => i < NINDIRECT
      case InDouble(i, j) => i < NINDIRECT && j < NINDIRECT
      case _ => true
    }

    predicate Leaf() {
      Direct? || InSingle? || InDouble?
    }
  }

  /** The slot of the file's bn-th block. */
  function SlotOf(bn: nat): (s: Slot)
    requires bn < MAXFILE
    ensures s.Ok() && s.Leaf()
  {
    if bn < NDIRECT then Direct(bn)
    else if bn - NDIRECT < NINDIRECT then InSingle(bn - NDIRECT)
    else
      var d := bn - NDIRECT - NINDIRECT;
      InDouble(d / NINDIRECT, d % NINDIRECT)
  }

  /** Different blocks of a file have different slots. */
  lemma SlotOfInjective(a: nat, b: nat)
    requires a < MAXFILE && b < MAXFILE && SlotOf(a) == SlotOf(b)
    ensures a == b
  {
  }

  function Entry(disk: seq<Block>, b: nat, i: nat): (e: uint)
    requires i < WORDS
  {
    if b == 0 || b >= |disk| then 0 else Word(disk[b], i)
  }

  /** The block number stored in a slot, 0 when there is none. */
  function At(disk: seq<Block>, ino: Inode, s: Slot): (b: uint)
    requires |ino.addrs| == NDIRECT + 2 && s.Ok()
  {
    match s
    case Direct(i) => ino.addrs[i]
    case Single => ino.addrs[NDIRECT]
    case InSingle(i) => Entry(disk, ino.addrs[NDIRECT], i)
    case Double => ino.addrs[NDIRECT + 1]
    case Middle(i) => Entry(disk, ino.addrs[NDIRECT + 1], i)
    case InDouble(i, j) => Entry(disk, Entry(disk, ino.addrs[NDIRECT + 1], i), j)
  }

  /** Byte pos of the file; blocks that are not there read as zeros. */
  function ByteAt(disk: seq<Block>, ino: Inode, pos: nat): (x: byte)
    requires |ino.addrs| == NDIRECT + 2 && pos < MAXBYTES
  {
    var b := At(disk, ino, SlotOf(pos / BSIZE));
    if b == 0 || b >= |disk| then 0 else disk[b][pos % BSIZE]
  }

  /** The inode and the index blocks of the disk name block addr as the file's
      bn-th: the first NDIRECT in the inode itself, the next NINDIRECT in the single
      indirect block in order, the others two levels down. */
  predicate Names(disk: seq<Block>, ino: Inode, bn: nat, addr: uint)
    requires |ino.addrs| == NDIRECT + 2
  {
    if bn < NDIRECT then addr == ino.addrs[bn]
    else if bn < NDIRECT + NINDIRECT then
      var x := ino.addrs[NDIRECT];
      0 < x < |disk| && addr == Word(disk[x], bn - NDIRECT)
    else if bn < MAXFILE then
      var k, x := bn - NDIRECT - NINDIRECT, ino.addrs[NDIRECT + 1];
      0 < x < |disk| && var y := Word(disk[x], k / NINDIRECT); 0 < y < |disk| && addr == Word(disk[y], k % NINDIRECT)
    else false
  }

  lemma NamesAt(disk: seq<Block>, ino: Inode, bn: nat)
    requires |ino.addrs| == NDIRECT + 2 && bn < MAXFILE && At(disk, ino, SlotOf(bn)) != 0
    ensures Names(disk, ino, bn, At(disk, ino, SlotOf(bn)))
  {
  }

  /** The bytes of a file lie in the blocks so named, in order. */
  lemma ByteLies(disk: seq<Block>, ino: Inode, bn: nat, o: nat, addr: uint)
    requires |ino.addrs| == NDIRECT + 2 && bn < MAXFILE && o < BSIZE && Names(disk, ino, bn, addr)
    ensures BSIZE * bn + o < MAXBYTES
    ensures ByteAt(disk, ino, BSIZE * bn + o) == if 0 < addr < |disk| then disk[addr][o] else 0
  {
    MulMono(BSIZE, bn + 1, MAXFILE);
    DivIs(BSIZE * bn + o, BSIZE, bn, o);
  }

  /** A file has a zero byte wherever no block is named. */
  lemma ByteOfHole(disk: seq<Block>, ino: Inode, pos: nat)
    requires |ino.addrs| == NDIRECT + 2 && pos < MAXBYTES && forall a: uint :: a != 0 ==> !Names(disk, ino, pos / BSIZE, a)
    ensures ByteAt(disk, ino, pos) == 0
  {
    if At(disk, ino, SlotOf(pos / BSIZE)) != 0 {
      NamesAt(disk, ino, pos / BSIZE);
    }
  }

  // ---- the free bitmap

  function Pow2(k: nat): (r: nat)
    requires k < 8
  {
    if k == 0 then 1 else if k == 1 then 2 else if k == 2 then 4 else if k == 3 then 8
    else if k == 4 then 16 else if k == 5 then 32 else if k == 6 then 64 else 128
  }

  predicate Bit(x: byte, k: nat)
    requires k < 8
  {
    ((x as int) / Pow2(k)) % 2 == 1
  }

  /** x |= 1 << k for a clear bit, x &= ~(1 << k) for a set one. */
  function FlipBit(x: byte, k: nat): (r: byte)
    requires k < 8
    ensures forall j :: 0 <= j < 8 ==> (Bit(r, j) <==> if j == k then !Bit(x, k) else Bit(x, j))
  {
    if Bit(x, k) then ClearedBit(x as int, k); ((x as int) - Pow2(k)) as byte
    else RaisedBit(x as int, k); ((x as int) + Pow2(k)) as byte
  }

  lemma MulMono(p: nat, a: int, b: int)
    requires a <= b
    ensures p * a <= p * b
  {
  }

  lemma DivIs(a: nat, p: nat, q: nat, r: nat)
    requires p > 0 && r < p && a == p * q + r
    ensures a / p == q
  {
    var d := a / p;
    var e := a % p;
    assert a == p * d + e;
    if d < q {
      MulMono(p, d + 1, q);
      assert false;
    } else if q < d {
      MulMono(p, q + 1, d);
      assert false;
    }
  }

  /** Adding p, with p a multiple of 2 * s, does not change bit s. */
  lemma LowBit(x: nat, s: nat, m: nat)
    requires s > 0
    ensures ((x + 2 * s * m) / s) % 2 == (x / s) % 2
  {
    var q := x / s;
    assert x + 2 * s * m == s * (q + 2 * m) + x % s;
    DivIs(x + 2 * s * m, s, q + 2 * m, x % s);
  }

  /** Adding p when bit p is clear does not change the bits above. */
  lemma HighBit(x: nat, p: nat, m: nat)
    requires p > 0 && m > 0 && (x / p) % 2 == 0
    ensures (x + p) / (2 * p * m) == x / (2 * p * m)
  {
    var s := 2 * p * m;
    var h, e := x / p, x % p;
    var g := h / 2;
    assert x == 2 * p * g + e by { assert h == 2 * g; assert p * (2 * g) == 2 * p * g; }
    var q, t := g / m, g % m;
    assert x == s * q + (2 * p * t + e) by {
      assert g == m * q + t;
      assert 2 * p * (m * q + t) == 2 * p * (m * q) + 2 * p * t;
      assert 2 * p * (m * q) == s * q;
    }
    MulMono(2 * p, t + 1, m);
    assert 2 * p * (t + 1) == 2 * p * t + 2 * p;
    DivIs(x, s, q, 2 * p * t + e);
    DivIs(x + p, s, q, 2 * p * t + e + p);
  }

  lemma RaisedBitAt(x: nat, k: nat, j: nat)
    requires k < 8 && j < 8 && (x / Pow2(k)) % 2 == 0
    ensures ((x + Pow2(k)) / Pow2(j)) % 2 == if j == k then 1 else (x / Pow2(j)) % 2
  {
    var p, s := Pow2(k), Pow2(j);
    if j == k {
      DivIs(x + p, p, x / p + 1, x % p);
    } else if j < k {
      var m := Pow2(k - j - 1);
      assert p == 2 * s * m;
      LowBit(x, s, m);
    } else {
      var m := Pow2(j - k - 1);
      assert s == 2 * p * m;
      HighBit(x, p, m);
    }
  }

  lemma RaisedBit(x: nat, k: nat)
    requires k < 8 && x < 256 && (x / Pow2(k)) % 2 == 0
    ensures x + Pow2(k) < 256
    ensures forall j :: 0 <= j < 8 ==> (((x + Pow2(k)) / Pow2(j)) % 2 == 1 <==> j == k || (x / Pow2(j)) % 2 == 1)
  {
    assert x + Pow2(k) < 256 by {
      HighBit(x, Pow2(k), Pow2(7 - k));
      assert 2 * Pow2(k) * Pow2(7 - k) == 256;
    }
    forall j | 0 <= j < 8
      ensures ((x + Pow2(k)) / Pow2(j)) % 2 == 1 <==> j == k || (x / Pow2(j)) % 2 == 1
    {
      RaisedBitAt(x, k, j);
    }
  }

  lemma ClearedBit(x: nat, k: nat)
    requires k < 8 && x < 256 && (x / Pow2(k)) % 2 == 1
    ensures 0 <= x - Pow2(k)
    ensures forall j :: 0 <= j < 8 ==> (((x - Pow2(k)) / Pow2(j)) % 2 == 1 <==> j != k && (x / Pow2(j)) % 2 == 1)
  {
    var p := Pow2(k);
    assert x == p * (x / p) + x % p;
    assert x - p >= 0;
    DivIs(x - p, p, x / p - 1, x % p);
    RaisedBit(x - p, k);
  }

  /** The bitmap says that block b is in use. */
  ghost predicate InUse(sb: Super, disk: seq<Block>, b: nat)
    requires sb.Ok() && sb.size <= |disk| && b < sb.size
  {
    Bit(disk[sb.BitBlock(b)][(b % BPB) / 8], b % 8)
  }

  // ---- the whole file system

  datatype Place = Place(inum: nat, slot: Slot)

  /** owner records, for the proofs, which slot each block in use belongs to. */
  datatype Fs = Fs(disk: seq<Block>, inodes: map<nat, Inode>, owner: map<nat, Place>)

  ghost predicate InodesOk(inodes: map<nat, Inode>) {
    forall n :: n in inodes ==> |inodes[n].addrs| == NDIRECT + 2
  }

  ghost predicate PlaceOk(inodes: map<nat, Inode>, p: Place) {
    p.inum in inodes && p.slot.Ok()
  }

  ghost function Ptr(f: Fs, p: Place): (b: uint)
    requires InodesOk(f.inodes) && PlaceOk(f.inodes, p)
  {
    At(f.disk, f.inodes[p.inum], p.slot)
  }

  /** Every block that a slot points at is a data block in use that this slot
      alone owns, and the owner records are exact. */
  ghost predicate Owned(sb: Super, f: Fs) {
    && sb.Ok() && sb.size <= |f.disk| && InodesOk(f.inodes)
    && (forall p :: PlaceOk(f.inodes, p) && Ptr(f, p) != 0 ==> Ptr(f, p) in f.owner && f.owner[Ptr(f, p)] == p)
    && (forall b :: b in f.owner ==> sb.Data(b) && PlaceOk(f.inodes, f.owner[b]) && Ptr(f, f.owner[b]) == b)
    && (forall b :: b in f.owner ==> InUse(sb, f.disk, b))
    && (forall b: nat :: b < sb.datastart ==> InUse(sb, f.disk, b))
  }

  lemma OwnedFacts(sb: Super, f: Fs)
    requires Owned(sb, f)
    ensures InodesOk(f.inodes) && sb.Ok() && sb.size <= |f.disk|
  {
  }

  /** What is known of the slot that a block belongs to. */
  lemma OwnerIs(sb: Super, f: Fs, b: nat)
    requires Owned(sb, f) && b in f.owner
    ensures InodesOk(f.inodes) && sb.Data(b) && b != 0 && PlaceOk(f.inodes, f.owner[b]) && Ptr(f, f.owner[b]) == b
  {
    hide InUse, Ptr;
  }

  /** What is known of the block that a slot points at. */
  lemma PtrIs(sb: Super, f: Fs, p: Place)
    requires Owned(sb, f) && PlaceOk(f.inodes, p)
    ensures Ptr(f, p) != 0 ==> Ptr(f, p) in f.owner && f.owner[Ptr(f, p)] == p && sb.Data(Ptr(f, p)) && Ptr(f, p) < |f.disk|
  {
    hide InUse, Ptr;
  }

  /** No block belongs to two slots, whether of one inode or of two. */
  lemma OneOwner(sb: Super, f: Fs, p: Place, q: Place)
    requires Owned(sb, f) && PlaceOk(f.inodes, p) && PlaceOk(f.inodes, q)
    requires Ptr(f, p) == Ptr(f, q) != 0
    ensures p == q
  {
  }

  /** The slot that holds the index block through which p is reached. */
  ghost function Parent(s: Slot): (r: Slot)
    requires s.InSingle? || s.Middle? || s.InDouble?
  {
    match s
    case InSingle(_) => Single
    case Middle(_) => Double
    case InDouble(i, _) => Middle(i)
  }

  ghost function IndexIn(s: Slot): (i: nat)
    requires s.InSingle? || s.Middle? || s.InDouble?
  {
    match s
    case InSingle(i) => i
    case Middle(i) => i
    case InDouble(_, j) => j
  }

  predicate InInode(s: Slot) {
    s.Direct? || s.Single? || s.Double?
  }

  ghost function AddrIndex(s: Slot): (i: nat)
    requires InInode(s)
  {
    match s
    case Direct(i) => i
    case Single => NDIRECT
    case Double => NDIRECT + 1
  }

  /** A slot is the word of its index block, or 0 when that is missing. */
  lemma AtIsEntry(disk: seq<Block>, ino: Inode, s: Slot)
    requires |ino.addrs| == NDIRECT + 2 && s.Ok()
    ensures InInode(s) ==> At(disk, ino, s) == ino.addrs[AddrIndex(s)]
    ensures !InInode(s) ==> Parent(s).Ok() && At(disk, ino, s) == Entry(disk, At(disk, ino, Parent(s)), IndexIn(s))
  {
  }

  /** The file system after the slot p has been made to point at b. */
  ghost function SetPtr(f: Fs, p: Place, b: uint): (g: Fs)
    requires InodesOk(f.inodes) && PlaceOk(f.inodes, p)
    requires InInode(p.slot) || Ptr(f, Place(p.inum, Parent(p.slot))) < |f.disk|
  {
    var ino := f.inodes[p.inum];
    if InInode(p.slot) then
      Fs(f.disk, f.inodes[p.inum := ino.(addrs := ino.addrs[AddrIndex(p.slot) := b])], f.owner[b := p])
    else
      var x := Ptr(f, Place(p.inum, Parent(p.slot)));
      Fs(f.disk[x := SetWord(f.disk[x], IndexIn(p.slot), b)], f.inodes, f.owner[b := p])
  }

  /** b can be hung into the empty slot p: it is a fresh zeroed data block, and
      the index block that holds the slot exists. */
  ghost predicate Attachable(sb: Super, f: Fs, p: Place, b: uint) {
    && Owned(sb, f) && PlaceOk(f.inodes, p) && Ptr(f, p) == 0
    && sb.Data(b) && b !in f.owner && InUse(sb, f.disk, b) && f.disk[b] == ZeroBlock()
    && (InInode(p.slot) || Ptr(f, Place(p.inum, Parent(p.slot))) != 0)
  }

  lemma ParentOwned(sb: Super, f: Fs, p: Place)
    requires Owned(sb, f) && PlaceOk(f.inodes, p) && !InInode(p.slot)
    ensures PlaceOk(f.inodes, Place(p.inum, Parent(p.slot)))
    ensures var x := Ptr(f, Place(p.inum, Parent(p.slot)));
            x != 0 ==> sb.Data(x) && x in f.owner && f.owner[x] == Place(p.inum, Parent(p.slot))
  {
    var q := Place(p.inum, Parent(p.slot));
    assert PlaceOk(f.inodes, q);
    assert Ptr(f, q) != 0 ==> Ptr(f, q) in f.owner;
  }

  lemma SetPtrInInode(sb: Super, f: Fs, p: Place, b: uint, q: Place)
    requires Attachable(sb, f, p, b) && InInode(p.slot) && PlaceOk(f.inodes, q)
    ensures Ptr(SetPtr(f, p, b), q) == if q == p then b else Ptr(f, q)
  {
    ZeroWords();
  }

  lemma SetPtrInBlock(sb: Super, f: Fs, p: Place, b: uint, q: Place)
    requires Attachable(sb, f, p, b) && !InInode(p.slot) && PlaceOk(f.inodes, q)
    requires Ptr(f, Place(p.inum, Parent(p.slot))) < |f.disk|
    ensures Ptr(SetPtr(f, p, b), q) == if q == p then b else Ptr(f, q)
    decreases match q.slot case InDouble(_, _) => 2 case InSingle(_) => 1 case Middle(_) => 1 case _ => 0
  {
    var pp := Place(p.inum, Parent(p.slot));
    var x := Ptr(f, pp);
    var g := SetPtr(f, p, b);
    ParentOwned(sb, f, p);
    AtIsEntry(f.disk, f.inodes[q.inum], q.slot);
    AtIsEntry(g.disk, g.inodes[q.inum], q.slot);
    if !InInode(q.slot) {
      var pq := Place(q.inum, Parent(q.slot));
      ParentOwned(sb, f, q);
      SetPtrInBlock(sb, f, p, b, pq);
      var y := Ptr(f, pq);
      if pq == p {
        ZeroWords();
      } else if y == x {
        assert pq == pp;
        WordSetWord(f.disk[x], IndexIn(p.slot), b, IndexIn(q.slot));
      }
    }
  }

  /** Filling an empty slot changes that slot and no other, in any inode. */
  lemma SetPtrAt(sb: Super, f: Fs, p: Place, b: uint, q: Place)
    requires Attachable(sb, f, p, b) && PlaceOk(f.inodes, q)
    ensures InInode(p.slot) || Ptr(f, Place(p.inum, Parent(p.slot))) < |f.disk|
    ensures Ptr(SetPtr(f, p, b), q) == if q == p then b else Ptr(f, q)
  {
    if InInode(p.slot) {
      SetPtrInInode(sb, f, p, b, q);
    } else {
      ParentOwned(sb, f, p);
      SetPtrInBlock(sb, f, p, b, q);
    }
  }

  /** Byte pos of inode n. */
  ghost function ByteOf(f: Fs, n: nat, pos: nat): (x: byte)
    requires InodesOk(f.inodes) && n in f.inodes && pos < MAXBYTES
  {
    ByteAt(f.disk, f.inodes[n], pos)
  }

  /** len bytes of inode n from position a on. */
  ghost function Slice(f: Fs, n: nat, a: nat, len: nat): (r: seq<byte>)
    requires InodesOk(f.inodes) && n in f.inodes && a + len <= MAXBYTES
    ensures |r| == len
    ensures forall i :: 0 <= i < len ==> r[i] == ByteOf(f, n, a + i)
  {
    seq(len, i requires 0 <= i < len => ByteOf(f, n, a + i))
  }

  lemma SliceAppend(f: Fs, n: nat, a: nat, x: nat, y: nat)
    requires InodesOk(f.inodes) && n in f.inodes && a + x + y <= MAXBYTES
    ensures Slice(f, n, a, x) + Slice(f, n, a + x, y) == Slice(f, n, a, x + y)
  {
    var s, t := Slice(f, n, a, x) + Slice(f, n, a + x, y), Slice(f, n, a, x + y);
    forall i | 0 <= i < x + y
      ensures s[i] == t[i]
    {
      if i >= x {
        assert s[i] == ByteOf(f, n, a + x + (i - x));
      }
    }
  }

  /** All files hold the same bytes in f and g. */
  ghost predicate SameBytes(f: Fs, g: Fs) {
    && InodesOk(f.inodes) && InodesOk(g.inodes) && f.inodes.Keys == g.inodes.Keys
    && forall n: nat, pos: nat :: n in f.inodes && pos < MAXBYTES ==> ByteOf(g, n, pos) == ByteOf(f, n, pos)
  }

  /** Slots that point somewhere keep pointing there. */
  ghost predicate Stable(f: Fs, g: Fs) {
    && InodesOk(f.inodes) && InodesOk(g.inodes) && f.inodes.Keys == g.inodes.Keys
    && forall p :: PlaceOk(f.inodes, p) && Ptr(f, p) != 0 ==> Ptr(g, p) == Ptr(f, p)
  }

  /** Index blocks that f owns have the same contents on the disk d. */
  ghost predicate SameIndexBlocks(f: Fs, d: seq<Block>) {
    && |d| == |f.disk|
    && forall b :: b in f.owner && b < |d| && !f.owner[b].slot.Leaf() ==> d[b] == f.disk[b]
  }

  /** Pointers depend on the inode and on the index blocks only. */
  lemma IndexFrame(sb: Super, f: Fs, d: seq<Block>, p: Place)
    requires Owned(sb, f) && PlaceOk(f.inodes, p) && SameIndexBlocks(f, d)
    ensures At(d, f.inodes[p.inum], p.slot) == Ptr(f, p)
    decreases match p.slot case InDouble(_, _) => 2 case InSingle(_) => 1 case Middle(_) => 1 case _ => 0
  {
    AtIsEntry(f.disk, f.inodes[p.inum], p.slot);
    AtIsEntry(d, f.inodes[p.inum], p.slot);
    if !InInode(p.slot) {
      ParentOwned(sb, f, p);
      IndexFrame(sb, f, d, Place(p.inum, Parent(p.slot)));
    }
  }

  /** Changing blocks that nobody owns changes no pointer and no byte. */
  lemma UnownedFrame(sb: Super, f: Fs, d: seq<Block>)
    requires Owned(sb, f) && |d| == |f.disk|
    requires forall b :: b in f.owner ==> d[b] == f.disk[b]
    ensures forall p :: PlaceOk(f.inodes, p) ==> Ptr(f.(disk := d), p) == Ptr(f, p)
    ensures SameBytes(f, f.(disk := d))
  {
    var g := f.(disk := d);
    forall p | PlaceOk(f.inodes, p)
      ensures Ptr(g, p) == Ptr(f, p)
    {
      IndexFrame(sb, f, d, p);
    }
    forall n: nat, pos: nat | n in f.inodes && pos < MAXBYTES
      ensures ByteOf(g, n, pos) == ByteOf(f, n, pos)
    {
      var p := Place(n, SlotOf(pos / BSIZE));
      assert PlaceOk(f.inodes, p);
      assert Ptr(g, p) == Ptr(f, p);
      assert Ptr(f, p) != 0 ==> Ptr(f, p) in f.owner;
    }
  }

  lemma SetPtrAll(sb: Super, f: Fs, p: Place, b: uint)
    requires Attachable(sb, f, p, b)
    ensures InInode(p.slot) || Ptr(f, Place(p.inum, Parent(p.slot))) < |f.disk|
    ensures var g := SetPtr(f, p, b);
            && InodesOk(g.inodes) && g.inodes.Keys == f.inodes.Keys && g.owner == f.owner[b := p] && |g.disk| == |f.disk|
            && forall q :: PlaceOk(f.inodes, q) ==> Ptr(g, q) == if q == p then b else Ptr(f, q)
  {
    SetPtrAt(sb, f, p, b, p);
    var g := SetPtr(f, p, b);
    assert InodesOk(g.inodes);
    forall q | PlaceOk(f.inodes, q)
      ensures Ptr(g, q) == if q == p then b else Ptr(f, q)
    {
      SetPtrAt(sb, f, p, b, q);
    }
  }

  lemma SetPtrOwners(sb: Super, f: Fs, g: Fs, p: Place, b: uint)
    requires Owned(sb, f) && InodesOk(g.inodes) && g.inodes.Keys == f.inodes.Keys && g.owner == f.owner[b := p]
    requires PlaceOk(f.inodes, p) && Ptr(f, p) == 0 && sb.Data(b) && b !in f.owner
    requires forall q :: PlaceOk(f.inodes, q) ==> Ptr(g, q) == if q == p then b else Ptr(f, q)
    ensures forall q :: PlaceOk(g.inodes, q) && Ptr(g, q) != 0 ==> Ptr(g, q) in g.owner && g.owner[Ptr(g, q)] == q
    ensures forall c :: c in g.owner ==> sb.Data(c) && PlaceOk(g.inodes, g.owner[c]) && Ptr(g, g.owner[c]) == c
  {
    hide Owned, Ptr;
    forall q | PlaceOk(g.inodes, q) && Ptr(g, q) != 0
      ensures Ptr(g, q) in g.owner && g.owner[Ptr(g, q)] == q
    {
      assert PlaceOk(f.inodes, q);
      PtrIs(sb, f, q);
    }
    forall c | c in g.owner
      ensures sb.Data(c) && PlaceOk(g.inodes, g.owner[c]) && Ptr(g, g.owner[c]) == c
    {
      if c != b {
        OwnerIs(sb, f, c);
      }
    }
  }

  /** Filling an empty slot keeps the ownership discipline. */
  lemma SetPtrOwned(sb: Super, f: Fs, p: Place, b: uint)
    requires Attachable(sb, f, p, b)
    ensures InInode(p.slot) || Ptr(f, Place(p.inum, Parent(p.slot))) < |f.disk|
    ensures Owned(sb, SetPtr(f, p, b))
  {
    SetPtrAll(sb, f, p, b);
    var g := SetPtr(f, p, b);
    SetPtrBitmap(sb, f, p, b);
    assert Owned(sb, g) by {
      hide Ptr, SetPtr, InUse;
      SetPtrOwners(sb, f, g, p, b);
      assert forall c :: c in g.owner ==> c == b || c in f.owner;
    }
  }

  lemma SetPtrBitmap(sb: Super, f: Fs, p: Place, b: uint)
    requires Attachable(sb, f, p, b)
    requires InInode(p.slot) || Ptr(f, Place(p.inum, Parent(p.slot))) < |f.disk|
    ensures |SetPtr(f, p, b).disk| == |f.disk|
    ensures forall c: nat :: c < sb.size ==> (InUse(sb, SetPtr(f, p, b).disk, c) <==> InUse(sb, f.disk, c))
  {
    var g := SetPtr(f, p, b);
    if !InInode(p.slot) {
      ParentOwned(sb, f, p);
      forall c: nat | c < sb.size
        ensures InUse(sb, g.disk, c) <==> InUse(sb, f.disk, c)
      {
        BitBlockIsMeta(sb, c);
        assert g.disk[sb.BitBlock(c)] == f.disk[sb.BitBlock(c)];
      }
    }
  }

  /** Where the bit of block b is: 4096 bits to a bitmap block, eight to a byte, the
      least significant first. */
  lemma BitmapLayout(sb: Super, disk: seq<Block>, b: nat)
    requires sb.Ok() && sb.size <= |disk| && b < sb.size
    ensures sb.bmapstart + b / 4096 < sb.datastart <= |disk|
    ensures var x := disk[sb.bmapstart + b / 4096][(b % 4096) / 8] as int;
            InUse(sb, disk, b) <==> (x / Pow2(b % 8)) % 2 == 1
  {
    BitBlockIsMeta(sb, b);
  }

  lemma BitBlockIsMeta(sb: Super, c: nat)
    requires sb.Ok() && c < sb.size
    ensures sb.bmapstart <= sb.BitBlock(c) < sb.datastart
  {
  }

  /** ... and no file's bytes: the new block is all zeros. */
  lemma SetPtrBytes(sb: Super, f: Fs, p: Place, b: uint)
    requires Attachable(sb, f, p, b)
    ensures InInode(p.slot) || Ptr(f, Place(p.inum, Parent(p.slot))) < |f.disk|
    ensures SameBytes(f, SetPtr(f, p, b)) && Stable(f, SetPtr(f, p, b))
  {
    SetPtrAt(sb, f, p, b, p);
    var g := SetPtr(f, p, b);
    if !InInode(p.slot) {
      ParentOwned(sb, f, p);
    }
    forall q | PlaceOk(f.inodes, q) && Ptr(f, q) != 0
      ensures Ptr(g, q) == Ptr(f, q)
    {
      SetPtrAt(sb, f, p, b, q);
    }
    forall n: nat, pos: nat | n in f.inodes && pos < MAXBYTES
      ensures ByteOf(g, n, pos) == ByteOf(f, n, pos)
    {
      var q := Place(n, SlotOf(pos / BSIZE));
      assert PlaceOk(f.inodes, q);
      SetPtrAt(sb, f, p, b, q);
      assert Ptr(f, q) != 0 ==> Ptr(f, q) in f.owner && f.owner[Ptr(f, q)] == q;
    }
  }

  // ---- what an allocation along some slots of one inode may change

  ghost function FreeBlocks(sb: Super, disk: seq<Block>): (r: set<nat>)
    requires sb.Ok() && sb.size <= |disk|
  {
    set b: nat | b < sb.size && !InUse(sb, disk, b)
  }

  /** The slots among ss that point nowhere. */
  ghost function Empty(f: Fs, n: nat, ss: set<Slot>): (r: set<Slot>)
    requires InodesOk(f.inodes) && n in f.inodes
  {
    set s | s in ss && s.Ok() && Ptr(f, Place(n, s)) == 0
  }

  ghost predicate SlotsOk(ss: set<Slot>) {
    forall s :: s in ss ==> s.Ok()
  }

  ghost predicate SameSizes(f: Fs, g: Fs) {
    && f.inodes.Keys == g.inodes.Keys
    && forall k :: k in f.inodes ==> g.inodes[k].size == f.inodes[k].size
  }

  /** Between f and g every empty slot among ss of inode n was filled by one
      fresh block, and no other pointer moved. */
  ghost predicate Filled(sb: Super, f: Fs, g: Fs, n: nat, ss: set<Slot>) {
    && Owned(sb, f) && Owned(sb, g) && n in f.inodes && SlotsOk(ss)
    && |g.disk| == |f.disk| && g.inodes.Keys == f.inodes.Keys
    && (forall p :: PlaceOk(f.inodes, p) && (Ptr(f, p) != 0 || p.inum != n || p.slot !in ss) ==> Ptr(g, p) == Ptr(f, p))
    && (forall s :: s in ss ==> Ptr(g, Place(n, s)) != 0)
    && FreeBlocks(sb, g.disk) <= FreeBlocks(sb, f.disk)
    && |FreeBlocks(sb, g.disk)| + |Empty(f, n, ss)| == |FreeBlocks(sb, f.disk)|
    && HandedOut(FreeBlocks(sb, f.disk), f.owner.Keys, FreeBlocks(sb, g.disk), g.owner.Keys)
  }

  /** Blocks moved from the free ones to the owned ones, and nowhere else. */
  ghost predicate HandedOut(free: set<nat>, owned: set<nat>, free1: set<nat>, owned1: set<nat>) {
    && owned <= owned1 && free1 <= free && owned1 - owned == free - free1
  }

  lemma HandedOutBoth(a: set<nat>, x: set<nat>, b: set<nat>, y: set<nat>, c: set<nat>, z: set<nat>)
    requires HandedOut(a, x, b, y) && HandedOut(b, y, c, z)
    ensures HandedOut(a, x, c, z)
  {
    forall e
      ensures e in z - x <==> e in a - c
    {
      assert e in y - x <==> e in a - b;
      assert e in z - y <==> e in b - c;
    }
    assert z - x == a - c;
  }

  lemma HandedOutOne(free: set<nat>, owned: set<nat>, b: nat)
    requires b in free && b !in owned
    ensures HandedOut(free, owned, free - {b}, owned + {b})
  {
    assert owned + {b} - owned == {b};
    assert free - (free - {b}) == {b};
  }

  /** ... and no file's bytes or size changed either. */
  ghost predicate Extended(sb: Super, f: Fs, g: Fs, n: nat, ss: set<Slot>) {
    Filled(sb, f, g, n, ss) && SameSizes(f, g) && SameBytes(f, g)
  }

  lemma FilledNothing(sb: Super, f: Fs, n: nat, ss: set<Slot>)
    requires Owned(sb, f) && n in f.inodes && SlotsOk(ss)
    requires forall s :: s in ss ==> Ptr(f, Place(n, s)) != 0
    ensures Filled(sb, f, f, n, ss)
  {
    assert Empty(f, n, ss) == {};
  }

  lemma ExtendedNothing(sb: Super, f: Fs, n: nat, ss: set<Slot>)
    requires Owned(sb, f) && n in f.inodes && SlotsOk(ss)
    requires forall s :: s in ss ==> Ptr(f, Place(n, s)) != 0
    ensures Extended(sb, f, f, n, ss)
  {
    FilledNothing(sb, f, n, ss);
  }

  /** After filling ss, what is left of ss + tt are the empty slots of tt. */
  lemma EmptyRest(sb: Super, f: Fs, g: Fs, n: nat, ss: set<Slot>, tt: set<Slot>)
    requires Filled(sb, f, g, n, ss)
    ensures |Empty(f, n, ss + tt)| == |Empty(f, n, ss)| + |Empty(g, n, tt)|
    ensures |Empty(f, n, ss + tt)| <= |FreeBlocks(sb, f.disk)| ==> |Empty(g, n, tt)| <= |FreeBlocks(sb, g.disk)|
  {
    assert Empty(f, n, ss + tt) == Empty(f, n, ss) + Empty(g, n, tt) by {
      forall s | s in ss + tt && s.Ok()
        ensures s in Empty(f, n, ss + tt) <==> s in Empty(f, n, ss) + Empty(g, n, tt)
      {
        assert PlaceOk(f.inodes, Place(n, s));
      }
    }
    assert Empty(f, n, ss) !! Empty(g, n, tt);
  }

  lemma FilledOk(sb: Super, f: Fs, g: Fs, n: nat, ss: set<Slot>)
    requires Filled(sb, f, g, n, ss)
    ensures InodesOk(f.inodes) && InodesOk(g.inodes) && n in g.inodes && sb.Ok() && sb.size <= |f.disk| && sb.size <= |g.disk|
  {
  }

  lemma FilledBoth(sb: Super, f: Fs, g: Fs, h: Fs, n: nat, ss: set<Slot>, tt: set<Slot>)
    requires Filled(sb, f, g, n, ss) && Filled(sb, g, h, n, tt)
    ensures Filled(sb, f, h, n, ss + tt)
  {
    hide Owned, FreeBlocks, Empty, HandedOut, InodesOk;
    FilledOk(sb, f, g, n, ss);
    FilledOk(sb, g, h, n, tt);
    EmptyRest(sb, f, g, n, ss, tt);
    HandedOutBoth(FreeBlocks(sb, f.disk), f.owner.Keys, FreeBlocks(sb, g.disk), g.owner.Keys, FreeBlocks(sb, h.disk), h.owner.Keys);
    forall p | PlaceOk(f.inodes, p) && (Ptr(f, p) != 0 || p.inum != n || p.slot !in ss + tt)
      ensures Ptr(h, p) == Ptr(f, p)
    {
      assert Ptr(g, p) == Ptr(f, p);
    }
    forall s | s in ss + tt
      ensures Ptr(h, Place(n, s)) != 0
    {
      assert PlaceOk(g.inodes, Place(n, s));
    }
  }

  lemma SameBytesBoth(f: Fs, g: Fs, h: Fs)
    requires SameBytes(f, g) && SameBytes(g, h)
    ensures SameBytes(f, h)
  {
    forall k: nat, pos: nat | k in f.inodes && pos < MAXBYTES
      ensures ByteOf(h, k, pos) == ByteOf(f, k, pos)
    {
      assert ByteOf(g, k, pos) == ByteOf(f, k, pos);
    }
  }

  lemma ExtendedBoth(sb: Super, f: Fs, g: Fs, h: Fs, n: nat, ss: set<Slot>, tt: set<Slot>)
    requires Extended(sb, f, g, n, ss) && Extended(sb, g, h, n, tt)
    ensures Extended(sb, f, h, n, ss + tt)
  {
    hide Filled, ByteOf;
    FilledBoth(sb, f, g, h, n, ss, tt);
    SameBytesBoth(f, g, h);
  }

  /** What balloc does to the disk. */
  ghost predicate Allocated(sb: Super, d: seq<Block>, e: seq<Block>, b: nat) {
    && sb.Ok() && sb.size <= |d| == |e| && b < sb.size
    && !InUse(sb, d, b) && e[b] == ZeroBlock()
    && (forall c: nat :: c < sb.size ==> (InUse(sb, e, c) <==> c == b || InUse(sb, d, c)))
    && (forall x: nat :: x < |d| && x != b && x != sb.BitBlock(b) ==> e[x] == d[x])
  }

  /** A freshly allocated block can be hung into any empty slot whose index
      block exists, and nothing else has changed. */
  lemma AllocatedFresh(sb: Super, f: Fs, e: seq<Block>, b: nat)
    requires Owned(sb, f) && Allocated(sb, f.disk, e, b)
    ensures sb.Data(b) && b !in f.owner
    ensures Owned(sb, f.(disk := e)) && SameBytes(f, f.(disk := e))
    ensures forall p :: PlaceOk(f.inodes, p) ==> Ptr(f.(disk := e), p) == Ptr(f, p)
    ensures FreeBlocks(sb, e) == FreeBlocks(sb, f.disk) - {b}
  {
    BitBlockIsMeta(sb, b);
    UnownedFrame(sb, f, e);
    assert Owned(sb, f.(disk := e));
  }

  lemma FreshAttachable(sb: Super, f: Fs, e: seq<Block>, p: Place, b: uint)
    requires Owned(sb, f) && Allocated(sb, f.disk, e, b) && PlaceOk(f.inodes, p) && Ptr(f, p) == 0
    requires InInode(p.slot) || Ptr(f, Place(p.inum, Parent(p.slot))) != 0
    ensures Attachable(sb, f.(disk := e), p, b)
    ensures InInode(p.slot) || Ptr(f.(disk := e), Place(p.inum, Parent(p.slot))) < |f.disk|
  {
    AllocatedFresh(sb, f, e, b);
    if !InInode(p.slot) {
      ParentOwned(sb, f, p);
    }
  }

  /** balloc followed by storing the block number into slot p. */
  lemma FillSlot(sb: Super, f: Fs, e: seq<Block>, p: Place, b: uint)
    requires Owned(sb, f) && Allocated(sb, f.disk, e, b) && PlaceOk(f.inodes, p) && Ptr(f, p) == 0
    requires InInode(p.slot) || Ptr(f, Place(p.inum, Parent(p.slot))) != 0
    ensures Attachable(sb, f.(disk := e), p, b)
    ensures InInode(p.slot) || Ptr(f.(disk := e), Place(p.inum, Parent(p.slot))) < |f.disk|
    ensures Extended(sb, f, SetPtr(f.(disk := e), p, b), p.inum, {p.slot})
    ensures Ptr(SetPtr(f.(disk := e), p, b), p) == b
  {
    hide SetPtr, Ptr, ByteOf, InUse, FreeBlocks, Empty, Allocated, HandedOut;
    FreshAttachable(sb, f, e, p, b);
    AllocatedFresh(sb, f, e, b);
    var f1 := f.(disk := e);
    SetPtrOwned(sb, f1, p, b);
    SetPtrBytes(sb, f1, p, b);
    var g := SetPtr(f1, p, b);
    FilledPointers(sb, f, f1, g, p, b);
    FilledFree(sb, f, f1, g, p, b);
    forall k: nat, pos: nat | k in f.inodes && pos < MAXBYTES
      ensures ByteOf(g, k, pos) == ByteOf(f, k, pos)
    {
      assert ByteOf(f1, k, pos) == ByteOf(f, k, pos);
    }
  }

  lemma FilledPointers(sb: Super, f: Fs, f1: Fs, g: Fs, p: Place, b: uint)
    requires Attachable(sb, f1, p, b) && f1 == f.(disk := f1.disk)
    requires InInode(p.slot) || Ptr(f1, Place(p.inum, Parent(p.slot))) < |f1.disk|
    requires g == SetPtr(f1, p, b)
    requires forall q :: PlaceOk(f.inodes, q) ==> Ptr(f1, q) == Ptr(f, q)
    ensures SameSizes(f, g) && InodesOk(g.inodes) && |g.disk| == |f1.disk|
    ensures forall q :: PlaceOk(f.inodes, q) ==> Ptr(g, q) == if q == p then b else Ptr(f, q)
  {
    assert SameSizes(f, g);
    assert InodesOk(g.inodes);
    forall q | PlaceOk(f.inodes, q)
      ensures Ptr(g, q) == if q == p then b else Ptr(f, q)
    {
      SetPtrAt(sb, f1, p, b, q);
    }
  }

  lemma FreeLess(sb: Super, f: Fs, f1: Fs, p: Place, b: uint)
    requires Owned(sb, f) && Allocated(sb, f.disk, f1.disk, b) && f1 == f.(disk := f1.disk)
    requires Attachable(sb, f1, p, b)
    requires InInode(p.slot) || Ptr(f1, Place(p.inum, Parent(p.slot))) < |f1.disk|
    ensures var g := SetPtr(f1, p, b);
            |g.disk| == |f.disk| && FreeBlocks(sb, g.disk) == FreeBlocks(sb, f.disk) - {b} && b in FreeBlocks(sb, f.disk) && b !in f.owner
  {
    SetPtrBitmap(sb, f1, p, b);
    AllocatedFresh(sb, f, f1.disk, b);
    hide SetPtr, Ptr, Attachable;
  }

  lemma FilledFree(sb: Super, f: Fs, f1: Fs, g: Fs, p: Place, b: uint)
    requires Owned(sb, f) && Allocated(sb, f.disk, f1.disk, b) && f1 == f.(disk := f1.disk)
    requires Attachable(sb, f1, p, b) && Ptr(f, p) == 0
    requires InInode(p.slot) || Ptr(f1, Place(p.inum, Parent(p.slot))) < |f1.disk|
    requires g == SetPtr(f1, p, b)
    ensures |g.disk| == |f.disk|
    ensures FreeBlocks(sb, g.disk) <= FreeBlocks(sb, f.disk)
    ensures |FreeBlocks(sb, g.disk)| + |Empty(f, p.inum, {p.slot})| == |FreeBlocks(sb, f.disk)|
    ensures HandedOut(FreeBlocks(sb, f.disk), f.owner.Keys, FreeBlocks(sb, g.disk), g.owner.Keys)
  {
    assert g.owner == f.owner[b := p];
    assert Empty(f, p.inum, {p.slot}) == {p.slot};
    hide HandedOut, FreeBlocks, InUse, Owned, SetPtr, Empty, Attachable, Ptr;
    FreeLess(sb, f, f1, p, b);
    HandedOutOne(FreeBlocks(sb, f.disk), f.owner.Keys, b);
    assert g.owner.Keys == f.owner.Keys + {b};
  }

  // ---- writing file data

  /** The bytes of src now stand at off in inode n; no other byte changed. */
  ghost predicate Spliced(f: Fs, g: Fs, n: nat, off: nat, src: seq<byte>) {
    && InodesOk(f.inodes) && InodesOk(g.inodes) && f.inodes.Keys == g.inodes.Keys
    && forall k: nat, pos: nat :: k in f.inodes && pos < MAXBYTES ==>
         ByteOf(g, k, pos) == if k == n && off <= pos < off + |src| then src[pos - off] else ByteOf(f, k, pos)
  }

  /** Storing new data into block k of file n: only its bytes change. */
  lemma WriteLeaf(sb: Super, f: Fs, n: nat, k: nat, blk: Block)
    requires Owned(sb, f) && n in f.inodes && k < MAXFILE && Ptr(f, Place(n, SlotOf(k))) != 0
    ensures Ptr(f, Place(n, SlotOf(k))) < |f.disk|
    ensures var g := f.(disk := f.disk[Ptr(f, Place(n, SlotOf(k))) := blk]);
            && (forall p :: PlaceOk(f.inodes, p) ==> Ptr(g, p) == Ptr(f, p))
            && forall m: nat, pos: nat :: m in f.inodes && pos < MAXBYTES ==>
                 ByteOf(g, m, pos) == if m == n && pos / BSIZE == k then blk[pos % BSIZE] else ByteOf(f, m, pos)
  {
    var pl := Place(n, SlotOf(k));
    PtrIs(sb, f, pl);
    var b := Ptr(f, pl);
    var g := f.(disk := f.disk[b := blk]);
    forall p | PlaceOk(f.inodes, p)
      ensures Ptr(g, p) == Ptr(f, p)
    {
      IndexFrame(sb, f, g.disk, p);
    }
    forall m: nat, pos: nat | m in f.inodes && pos < MAXBYTES
      ensures ByteOf(g, m, pos) == if m == n && pos / BSIZE == k then blk[pos % BSIZE] else ByteOf(f, m, pos)
    {
      var q := Place(m, SlotOf(pos / BSIZE));
      assert PlaceOk(f.inodes, q) && Ptr(g, q) == Ptr(f, q);
      PtrIs(sb, f, q);
      if Ptr(f, q) == b {
        SlotOfInjective(pos / BSIZE, k);
      }
    }
  }

  lemma WriteLeafOwned(sb: Super, f: Fs, n: nat, k: nat, blk: Block)
    requires Owned(sb, f) && n in f.inodes && k < MAXFILE && Ptr(f, Place(n, SlotOf(k))) != 0
    ensures Ptr(f, Place(n, SlotOf(k))) < |f.disk|
    ensures Owned(sb, f.(disk := f.disk[Ptr(f, Place(n, SlotOf(k))) := blk]))
    ensures FreeBlocks(sb, f.disk[Ptr(f, Place(n, SlotOf(k))) := blk]) == FreeBlocks(sb, f.disk)
  {
    var b := Ptr(f, Place(n, SlotOf(k)));
    WriteLeaf(sb, f, n, k, blk);
    PtrIs(sb, f, Place(n, SlotOf(k)));
    var g := f.(disk := f.disk[b := blk]);
    forall c: nat | c < sb.size
      ensures InUse(sb, g.disk, c) <==> InUse(sb, f.disk, c)
    {
      BitBlockIsMeta(sb, c);
    }
    hide Ptr, InUse;
    assert Owned(sb, g);
  }

  /** Overwriting a file block after allocating along ss keeps Filled. */
  lemma FilledThenWritten(sb: Super, f: Fs, g: Fs, n: nat, ss: set<Slot>, k: nat, blk: Block)
    requires Filled(sb, f, g, n, ss) && k < MAXFILE && Ptr(g, Place(n, SlotOf(k))) != 0
    ensures Ptr(g, Place(n, SlotOf(k))) < |g.disk|
    ensures Filled(sb, f, g.(disk := g.disk[Ptr(g, Place(n, SlotOf(k))) := blk]), n, ss)
  {
    WriteLeaf(sb, g, n, k, blk);
    WriteLeafOwned(sb, g, n, k, blk);
    var h := g.(disk := g.disk[Ptr(g, Place(n, SlotOf(k))) := blk]);
    hide Owned, ByteOf, Ptr, FreeBlocks;
    forall s | s in ss
      ensures Ptr(h, Place(n, s)) != 0
    {
      assert PlaceOk(g.inodes, Place(n, s));
    }
  }

  /** A block with bytes o .. o + |piece| - 1 replaced. */
  function Patch(blk: Block, o: nat, piece: seq<byte>): (r: Block)
    requires o + |piece| <= BSIZE
    ensures forall i :: 0 <= i < BSIZE ==> r[i] == if o <= i < o + |piece| then piece[i - o] else blk[i]
  {
    blk[..o] + piece + blk[o + |piece|..]
  }

  lemma BytesOfBlock(h: Fs, n: nat, k: nat, o: nat)
    requires n in h.inodes && InodesOk(h.inodes) && k < MAXFILE && o < BSIZE
    requires 0 != Ptr(h, Place(n, SlotOf(k))) < |h.disk|
    ensures BSIZE * k + o < MAXBYTES && ByteOf(h, n, BSIZE * k + o) == h.disk[Ptr(h, Place(n, SlotOf(k)))][o]
  {
    DivIs(BSIZE * k + o, BSIZE, k, o);
  }

  /** Patching block k of the file splices its bytes. */
  lemma PatchSplices(sb: Super, f: Fs, n: nat, k: nat, o: nat, piece: seq<byte>)
    requires Owned(sb, f) && n in f.inodes && k < MAXFILE && Ptr(f, Place(n, SlotOf(k))) != 0 && o + |piece| <= BSIZE
    ensures Ptr(f, Place(n, SlotOf(k))) < |f.disk|
    ensures var b := Ptr(f, Place(n, SlotOf(k)));
            Spliced(f, f.(disk := f.disk[b := Patch(f.disk[b], o, piece)]), n, BSIZE * k + o, piece)
  {
    hide InUse, Ptr, ByteOf, SlotOf;
    PtrIs(sb, f, Place(n, SlotOf(k)));
    var b := Ptr(f, Place(n, SlotOf(k)));
    var blk := Patch(f.disk[b], o, piece);
    WriteLeaf(sb, f, n, k, blk);
    var g := f.(disk := f.disk[b := blk]);
    var off := BSIZE * k + o;
    forall m: nat, pos: nat | m in f.inodes && pos < MAXBYTES
      ensures ByteOf(g, m, pos) == if m == n && off <= pos < off + |piece| then piece[pos - off] else ByteOf(f, m, pos)
    {
      assert pos == BSIZE * (pos / BSIZE) + pos % BSIZE;
      if m == n && off <= pos < off + |piece| {
        DivIs(pos, BSIZE, k, pos - BSIZE * k);
      } else if m == n && pos / BSIZE == k {
        BytesOfBlock(f, n, k, pos % BSIZE);
      }
    }
  }

  // ---- fresh volumes and inodes

  /** Bytes at and after a file's size are zero, also in allocated blocks. */
  ghost predicate TailZero(f: Fs) {
    && InodesOk(f.inodes)
    && forall k: nat, pos: nat :: k in f.inodes && f.inodes[k].size <= pos < MAXBYTES ==> ByteOf(f, k, pos) == 0
  }

  /** A volume with its metadata marked in use and no inodes is well formed. */
  lemma EmptyVolume(sb: Super, disk: seq<Block>)
    requires sb.Ok() && sb.size <= |disk| && forall b: nat :: b < sb.datastart ==> InUse(sb, disk, b)
    ensures Owned(sb, Fs(disk, map[], map[])) && TailZero(Fs(disk, map[], map[]))
  {
  }

  function BlankInode(): (ino: Inode)
    ensures ino.size == 0 && |ino.addrs| == NDIRECT + 2 && forall i :: 0 <= i < NDIRECT + 2 ==> ino.addrs[i] == 0
  {
    Inode(0, seq(NDIRECT + 2, _ => 0))
  }

  /** ialloc: a blank inode owns nothing, reads as zeros, and disturbs no file. */
  lemma NewInode(sb: Super, f: Fs, n: nat)
    requires Owned(sb, f) && TailZero(f) && n !in f.inodes
    ensures var g := f.(inodes := f.inodes[n := BlankInode()]);
            && Owned(sb, g) && TailZero(g) && (forall pos: nat :: pos < MAXBYTES ==> ByteOf(g, n, pos) == 0)
            && forall k: nat, pos: nat :: k in f.inodes && pos < MAXBYTES ==> ByteOf(g, k, pos) == ByteOf(f, k, pos)
  {
    hide Owned;
    var g := f.(inodes := f.inodes[n := BlankInode()]);
    OwnedFacts(sb, f);
    assert InodesOk(g.inodes);
    forall p | PlaceOk(g.inodes, p)
      ensures p.inum == n ==> Ptr(g, p) == 0
      ensures p.inum != n ==> PlaceOk(f.inodes, p) && Ptr(g, p) == Ptr(f, p)
    {
    }
    forall pos: nat | pos < MAXBYTES
      ensures ByteOf(g, n, pos) == 0
    {
      assert Ptr(g, Place(n, SlotOf(pos / BSIZE))) == 0;
    }
    forall k: nat, pos: nat | k in f.inodes && pos < MAXBYTES
      ensures ByteOf(g, k, pos) == ByteOf(f, k, pos)
    {
    }
    forall k: nat, pos: nat | k in g.inodes && g.inodes[k].size <= pos < MAXBYTES
      ensures ByteOf(g, k, pos) == 0
    {
      assert k != n ==> ByteOf(g, k, pos) == ByteOf(f, k, pos);
    }
    NewInodeOwned(sb, f, g, n);
  }

  lemma NewInodeOwned(sb: Super, f: Fs, g: Fs, n: nat)
    requires Owned(sb, f) && n !in f.inodes && InodesOk(g.inodes) && g.disk == f.disk && g.owner == f.owner
    requires forall k :: k in g.inodes <==> k in f.inodes || k == n
    requires forall p :: PlaceOk(g.inodes, p) ==> if p.inum == n then Ptr(g, p) == 0 else PlaceOk(f.inodes, p) && Ptr(g, p) == Ptr(f, p)
    ensures Owned(sb, g)
  {
    hide Ptr, InUse;
    forall b | b in g.owner
      ensures sb.Data(b) && PlaceOk(g.inodes, g.owner[b]) && Ptr(g, g.owner[b]) == b
    {
      OwnerIs(sb, f, b);
    }
  }

  ghost function SetSize(f: Fs, n: nat, end: nat): (g: Fs)
    requires n in f.inodes
  {
    f.(inodes := f.inodes[n := f.inodes[n].(size := end)])
  }

  /** Setting the size of an inode moves no pointer and changes no byte. */
  lemma SizeSet(sb: Super, f: Fs, n: nat, end: nat)
    requires Owned(sb, f) && n in f.inodes
    ensures Filled(sb, f, SetSize(f, n, end), n, {}) && Spliced(f, SetSize(f, n, end), n, end, [])
    ensures InodesOk(SetSize(f, n, end).inodes) && forall ss: set<Slot> :: Empty(SetSize(f, n, end), n, ss) == Empty(f, n, ss)
  {
    var g := SetSize(f, n, end);
    assert InodesOk(g.inodes) && g.inodes.Keys == f.inodes.Keys;
    assert forall p :: PlaceOk(g.inodes, p) ==> Ptr(g, p) == Ptr(f, p);
    assert forall k: nat, pos: nat :: k in f.inodes && pos < MAXBYTES ==> ByteOf(g, k, pos) == ByteOf(f, k, pos);
    hide Ptr, InUse, ByteOf;
    assert Owned(sb, g);
    forall ss: set<Slot>
      ensures Empty(g, n, ss) == Empty(f, n, ss)
    {
      forall s | s in ss && s.Ok()
        ensures Ptr(g, Place(n, s)) == Ptr(f, Place(n, s))
      {
        assert PlaceOk(g.inodes, Place(n, s));
      }
    }
    assert Empty(f, n, {}) == {};
  }
}
