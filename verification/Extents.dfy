/** Extent files: every write starts a new run of blocks, and reads return one
    block at a time up to its first NUL byte. */
module Extents {
  import opened Blocks
  import opened FsModel
  import opened FileSystem
  import opened OpenFiles

  datatype Extent = Extent(length: nat, start: uint)

  /** One write: data from byte o of logical block first on. */
  datatype Span = Span(first: nat, o: nat, data: seq<byte>)

  ghost predicate SpanOk(s: Span) {
    s.o < BSIZE && s.data != [] && BSIZE * s.first + s.o + |s.data| <= MAXBYTES
  }

  function StartOf(s: Span): (p: nat) {
    BSIZE * s.first + s.o
  }

  /** The block after its last one. */
  function EndOf(s: Span): (k: nat) {
    EndBlock(StartOf(s), |s.data|)
  }

  lemma EndIs(s: Span)
    requires SpanOk(s)
    ensures s.first < EndOf(s) <= MAXFILE
    ensures BSIZE * (EndOf(s) - 1) < StartOf(s) + |s.data| <= BSIZE * EndOf(s)
  {
    var last := StartOf(s) + |s.data| - 1;
    DivIs(StartOf(s), BSIZE, s.first, s.o);
    assert last == BSIZE * (last / BSIZE) + last % BSIZE;
  }

  /** filewrite's chunks touch at most four blocks each. */
  lemma ShortSpan(s: Span)
    requires SpanOk(s) && s.first < EndOf(s)
    ensures |s.data| <= MAXCHUNK ==> EndOf(s) - s.first <= 4
  {
    EndIs(s);
  }

  /** The spans follow each other block by block from block a. */
  ghost predicate Laid(spans: seq<Span>, a: nat) {
    forall i :: 0 <= i < |spans| ==> LaidAt(spans, a, i)
  }

  ghost predicate LaidAt(spans: seq<Span>, a: nat, i: nat)
    requires i < |spans|
  {
    SpanOk(spans[i]) && spans[i].first == if i == 0 then a else EndOf(spans[i - 1])
  }

  function BlocksEnd(spans: seq<Span>): (k: nat) {
    if spans == [] then 0 else EndOf(spans[|spans| - 1])
  }

  // ---- what reading block by block gives

  /** The data of s that lies in block k. */
  function InBlock(s: Span, k: nat): (d: seq<byte>)
    requires SpanOk(s) && s.first <= k < EndOf(s)
  {
    EndIs(s);
    var lo := if k == s.first then 0 else BSIZE * (k - s.first) - s.o;
    var hi := BSIZE * (k - s.first) - s.o + BSIZE;
    if hi <= |s.data| then s.data[lo..hi] else if lo <= |s.data| then s.data[lo..] else []
  }

  /** What a read of block k returns: nothing when the data does not start at the
      block's first byte. */
  function Piece(s: Span, k: nat): (d: seq<byte>)
    requires SpanOk(s) && s.first <= k < EndOf(s)
  {
    if k == s.first && s.o > 0 then [] else InBlock(s, k)
  }

  /** All blocks of s from k on, one after the other. */
  function Pieces(s: Span, k: nat): (d: seq<byte>)
    requires SpanOk(s) && s.first <= k <= EndOf(s)
    decreases EndOf(s) - k
  {
    if k == EndOf(s) then [] else Piece(s, k) + Pieces(s, k + 1)
  }

  /** How much of the data lies in the blocks before k. */
  function Before(s: Span, k: nat): (n: nat)
    requires s.o < BSIZE && s.first < k
  {
    BSIZE * (k - s.first) - s.o
  }

  lemma PieceInside(s: Span, k: nat)
    requires SpanOk(s) && s.first < k < EndOf(s)
    ensures Before(s, k) < |s.data|
    ensures Piece(s, k) == if k + 1 < EndOf(s) then s.data[Before(s, k)..Before(s, k + 1)] else s.data[Before(s, k)..]
    ensures k + 1 < EndOf(s) ==> Before(s, k + 1) <= |s.data|
  {
    EndIs(s);
    var lo := Before(s, k);
    assert Before(s, k + 1) == lo + BSIZE;
    assert lo + BSIZE == |s.data| ==> s.data[lo..] == s.data[lo..lo + BSIZE];
  }

  lemma {:induction false} PiecesTail(s: Span, k: nat)
    requires SpanOk(s) && s.first < k <= EndOf(s)
    ensures k < EndOf(s) ==> Before(s, k) <= |s.data|
    ensures Pieces(s, k) == if k == EndOf(s) then [] else s.data[Before(s, k)..]
    decreases EndOf(s) - k
  {
    hide Piece, EndOf;
    if k < EndOf(s) {
      PieceInside(s, k);
      PiecesTail(s, k + 1);
      if k + 1 < EndOf(s) {
        assert s.data[Before(s, k)..] == s.data[Before(s, k)..Before(s, k + 1)] + s.data[Before(s, k + 1)..];
      }
    }
  }

  lemma PieceFirst(s: Span)
    requires SpanOk(s)
    ensures s.first < EndOf(s) && (s.first + 1 < EndOf(s) ==> Before(s, s.first + 1) < |s.data|)
    ensures Piece(s, s.first) == if s.o > 0 then [] else if s.first + 1 < EndOf(s) then s.data[..BSIZE] else s.data
  {
    EndIs(s);
    assert s.data[0..] == s.data;
    assert BSIZE <= |s.data| ==> s.data[0..BSIZE] == s.data[..BSIZE];
    assert BSIZE == |s.data| ==> s.data[..BSIZE] == s.data;
  }

  /** Reading a whole span gives its data back when it starts at a block boundary;
      otherwise the part in the first block is missing. */
  lemma SpanReadBack(s: Span)
    requires SpanOk(s)
    ensures s.first <= EndOf(s)
    ensures s.o == 0 ==> Pieces(s, s.first) == s.data
    ensures s.o > 0 ==> |Pieces(s, s.first)| < |s.data|
  {
    hide Piece, EndOf;
    PieceFirst(s);
    PiecesTail(s, s.first + 1);
    if s.first + 1 < EndOf(s) && s.o == 0 {
      assert s.data == s.data[..BSIZE] + s.data[BSIZE..];
    }
  }

  function AllData(spans: seq<Span>): (d: seq<byte>) {
    if spans == [] then [] else AllData(spans[..|spans| - 1]) + spans[|spans| - 1].data
  }

  function AllPieces(spans: seq<Span>): (d: seq<byte>)
    requires forall i :: 0 <= i < |spans| ==> SpanOk(spans[i])
  {
    if spans == [] then [] else
      var s := spans[|spans| - 1];
      EndIs(s);
      AllPieces(spans[..|spans| - 1]) + Pieces(s, s.first)
  }

  /** Reading everything gives the concatenation of all writes exactly when every
      write started at a block boundary. */
  lemma {:induction false} ReadBackExact(spans: seq<Span>)
    requires forall i :: 0 <= i < |spans| ==> SpanOk(spans[i])
    ensures |AllPieces(spans)| <= |AllData(spans)|
    ensures AllPieces(spans) == AllData(spans) <==> forall i :: 0 <= i < |spans| ==> spans[i].o == 0
  {
    if spans != [] {
      var init, s := spans[..|spans| - 1], spans[|spans| - 1];
      ReadBackExact(init);
      SpanReadBack(s);
      if forall i :: 0 <= i < |init| ==> init[i].o == 0 {
        assert AllPieces(init) == AllData(init);
        assert forall i :: 0 <= i < |spans| - 1 ==> spans[i] == init[i];
      } else {
        Shorter(init);
        var i :| 0 <= i < |init| && init[i].o != 0;
        assert spans[i] == init[i];
      }
    }
  }

  lemma {:induction false} Shorter(spans: seq<Span>)
    requires forall i :: 0 <= i < |spans| ==> SpanOk(spans[i])
    requires exists i :: 0 <= i < |spans| && spans[i].o != 0
    ensures |AllPieces(spans)| < |AllData(spans)|
  {
    hide SpanOk, Pieces;
    var init, s := spans[..|spans| - 1], spans[|spans| - 1];
    SpanReadBack(s);
    AtMost(init);
    if s.o == 0 {
      var i :| 0 <= i < |spans| && spans[i].o != 0;
      assert init[i] == spans[i];
      Shorter(init);
    }
  }

  lemma {:induction false} AtMost(spans: seq<Span>)
    requires forall i :: 0 <= i < |spans| ==> SpanOk(spans[i])
    ensures |AllPieces(spans)| <= |AllData(spans)|
  {
    if spans != [] {
      AtMost(spans[..|spans| - 1]);
      SpanReadBack(spans[|spans| - 1]);
    }
  }

  // ---- what is on disk

  ghost predicate Within(s: Span, pos: nat) {
    StartOf(s) <= pos < StartOf(s) + |s.data|
  }

  /** The bytes of the file's blocks: the data of the spans, zeros elsewhere. */
  ghost function FlatByte(spans: seq<Span>, pos: nat): (b: byte) {
    if spans == [] then 0 else
      var s := spans[|spans| - 1];
      if Within(s, pos) then s.data[pos - StartOf(s)] else FlatByte(spans[..|spans| - 1], pos)
  }

  ghost predicate Holds(f: Fs, n: nat, spans: seq<Span>) {
    InodesOk(f.inodes) && n in f.inodes && forall pos: nat :: pos < MAXBYTES ==> ByteOf(f, n, pos) == FlatByte(spans, pos)
  }

  lemma {:induction false} LaidMono(spans: seq<Span>, i: nat, j: nat)
    requires Laid(spans, 0) && i < j < |spans|
    ensures EndOf(spans[i]) <= spans[j].first
    decreases j
  {
    assert LaidAt(spans, 0, j) && LaidAt(spans, 0, j - 1);
    if i + 1 < j {
      LaidMono(spans, i, j - 1);
      EndIs(spans[j - 1]);
    }
  }

  lemma LaidInit(spans: seq<Span>)
    requires Laid(spans, 0) && spans != []
    ensures var j := |spans| - 1; Laid(spans[..j], 0) && BlocksEnd(spans[..j]) == spans[j].first && SpanOk(spans[j])
  {
    var j := |spans| - 1;
    var init := spans[..j];
    forall i | 0 <= i < |init|
      ensures LaidAt(init, 0, i)
    {
      assert LaidAt(spans, 0, i);
    }
    assert LaidAt(spans, 0, j);
  }

  /** Within the blocks of span i only span i counts. */
  lemma {:induction false} FlatInside(spans: seq<Span>, i: nat, pos: nat)
    requires Laid(spans, 0) && i < |spans| && BSIZE * spans[i].first <= pos < BSIZE * EndOf(spans[i])
    ensures FlatByte(spans, pos) == if Within(spans[i], pos) then spans[i].data[pos - StartOf(spans[i])] else 0
    decreases |spans|
  {
    hide Laid, EndOf, SpanOk;
    LaidInit(spans);
    var j := |spans| - 1;
    var init := spans[..j];
    if i < j {
      LaidMono(spans, i, j);
      MulMono(BSIZE, EndOf(spans[i]), spans[j].first);
      FlatInside(init, i, pos);
    } else if !Within(spans[j], pos) {
      FlatBelow(init, BSIZE * spans[j].first, pos);
    }
  }

  lemma {:induction false} FlatBelow(spans: seq<Span>, top: nat, pos: nat)
    requires Laid(spans, 0) && top == BSIZE * BlocksEnd(spans) && pos >= top
    ensures FlatByte(spans, pos) == 0
    decreases |spans|
  {
    hide Laid, EndOf, SpanOk;
    if spans != [] {
      LaidInit(spans);
      var j := |spans| - 1;
      var init := spans[..j];
      EndIs(spans[j]);
      MulMono(BSIZE, spans[j].first, EndOf(spans[j]));
      FlatBelow(init, BSIZE * BlocksEnd(init), pos);
    }
  }

  ghost predicate NulFree(spans: seq<Span>) {
    forall i :: 0 <= i < |spans| ==> TextOnly(spans[i].data)
  }

  ghost predicate TextOnly(d: seq<byte>) {
    forall j :: 0 <= j < |d| ==> d[j] != 0
  }

  /** The C string in block k is the piece of the span that owns the block. */
  lemma BlockRead(f: Fs, n: nat, spans: seq<Span>, i: nat, k: nat)
    requires Holds(f, n, spans) && Laid(spans, 0) && NulFree(spans) && i < |spans| && SpanOk(spans[i]) && spans[i].first <= k < EndOf(spans[i])
    ensures BSIZE * k + BSIZE <= MAXBYTES && Text(Slice(f, n, BSIZE * k, BSIZE)) == Piece(spans[i], k)
  {
    var s := spans[i];
    assert LaidAt(spans, 0, i);
    EndIs(s);
    MulMono(BSIZE, k + 1, MAXFILE);
    MulMono(BSIZE, s.first, k);
    MulMono(BSIZE, k + 1, EndOf(s));
    var b := Slice(f, n, BSIZE * k, BSIZE);
    forall x | 0 <= x < BSIZE
      ensures b[x] == if Within(s, BSIZE * k + x) then s.data[BSIZE * k + x - StartOf(s)] else 0
    {
      assert b[x] == ByteOf(f, n, BSIZE * k + x);
      FlatInside(spans, i, BSIZE * k + x);
    }
    assert TextOnly(s.data);
    BlockString(s, k, b);
  }

  lemma BlockString(s: Span, k: nat, b: seq<byte>)
    requires SpanOk(s) && s.first <= k < EndOf(s) && |b| == BSIZE && TextOnly(s.data)
    requires forall x :: 0 <= x < BSIZE ==> b[x] == if Within(s, BSIZE * k + x) then s.data[BSIZE * k + x - StartOf(s)] else 0
    ensures Text(b) == Piece(s, k)
  {
    hide EndOf, Text;
    EndIs(s);
    if k == s.first && s.o > 0 {
      TextIs(b, 0);
    } else {
      var lo := BSIZE * k - StartOf(s);
      var m := if |s.data| - lo < BSIZE then |s.data| - lo else BSIZE;
      assert 0 <= lo < |s.data|;
      forall x | 0 <= x < BSIZE
        ensures b[x] == if x < m then s.data[lo + x] else 0
      {
      }
      TextIs(b, m);
      assert b[..m] == s.data[lo..lo + m];
    }
  }

  /** A further write at the first free block. */
  lemma HoldsMore(f: Fs, g: Fs, n: nat, spans: seq<Span>, s: Span)
    requires Holds(f, n, spans) && Spliced(f, g, n, StartOf(s), s.data)
    ensures Holds(g, n, spans + [s])
  {
    assert (spans + [s])[..|spans|] == spans;
  }

  ghost predicate ExtentsOk(f: Fs, n: nat, extents: seq<Extent>, spans: seq<Span>)
    requires InodesOk(f.inodes) && n in f.inodes
  {
    && |extents| == |spans|
    && forall i :: 0 <= i < |spans| ==> ExtentOk(f, n, extents[i], spans[i])
  }

  /** An extent is as long as its write, and starts at the block that its first
      logical block is mapped to. */
  ghost predicate ExtentOk(f: Fs, n: nat, e: Extent, s: Span)
    requires InodesOk(f.inodes) && n in f.inodes
  {
    && SpanOk(s) && s.first < MAXFILE && e.length == EndOf(s) - s.first
    && e.start != 0 && e.start == Ptr(f, Place(n, SlotOf(s.first)))
  }

  /** The first k logical blocks are mapped. */
  ghost predicate AllMapped(f: Fs, n: nat, k: nat)
    requires InodesOk(f.inodes) && n in f.inodes
  {
    k <= MAXFILE && forall j :: 0 <= j < k ==> Empty(f, n, Path(j)) == {}
  }

  /** Everything holds on with one more span. */
  lemma SpanAdded(sb: Super, f: Fs, g: Fs, n: nat, extents: seq<Extent>, spans: seq<Span>, s: Span, e: Extent)
    requires Holds(f, n, spans) && Laid(spans, 0) && ExtentsOk(f, n, extents, spans) && AllMapped(f, n, BlocksEnd(spans))
    requires SpanOk(s) && s.first == BlocksEnd(spans) && EndOf(s) <= MAXFILE && s.first < EndOf(s)
    requires Filled(sb, f, g, n, Paths(s.first, EndOf(s))) && Spliced(f, g, n, StartOf(s), s.data)
    requires n in g.inodes && InodesOk(g.inodes)
    requires e.length == EndOf(s) - s.first && e.start != 0 && e.start == Ptr(g, Place(n, SlotOf(s.first)))
    ensures Owned(sb, g) && Holds(g, n, spans + [s]) && Laid(spans + [s], 0)
    ensures ExtentsOk(g, n, extents + [e], spans + [s]) && BlocksEnd(spans + [s]) == EndOf(s) && AllMapped(g, n, EndOf(s))
  {
    hide Filled, Owned, Holds, Spliced;
    HoldsFacts(f, n, spans);
    FilledParts(sb, f, g, n, Paths(s.first, EndOf(s)));
    HoldsMore(f, g, n, spans, s);
    LaidMore(spans, s);
    ExtentsKept(sb, f, g, n, extents, spans, Paths(s.first, EndOf(s)));
    MappedMore(sb, f, g, n, s.first, EndOf(s));
    forall i | 0 <= i < |spans + [s]|
      ensures ExtentOk(g, n, (extents + [e])[i], (spans + [s])[i])
    {
      if i < |spans| {
        assert ExtentOk(g, n, extents[i], spans[i]);
      }
    }
  }

  lemma LaidMore(spans: seq<Span>, s: Span)
    requires Laid(spans, 0) && SpanOk(s) && s.first == BlocksEnd(spans)
    ensures Laid(spans + [s], 0)
  {
    forall i | 0 <= i < |spans| + 1
      ensures LaidAt(spans + [s], 0, i)
    {
      if i < |spans| {
        assert LaidAt(spans, 0, i);
      }
    }
  }

  /** Mapped blocks stay where they are when more are filled in. */
  lemma PtrKept(sb: Super, f: Fs, g: Fs, n: nat, ss: set<Slot>, s: Slot)
    requires Filled(sb, f, g, n, ss) && s.Ok() && InodesOk(f.inodes) && InodesOk(g.inodes) && n in g.inodes && n in f.inodes
    ensures Ptr(f, Place(n, s)) != 0 ==> Ptr(g, Place(n, s)) == Ptr(f, Place(n, s))
    ensures s in ss ==> Ptr(g, Place(n, s)) != 0
  {
    assert PlaceOk(f.inodes, Place(n, s));
  }

  lemma ExtentsKept(sb: Super, f: Fs, g: Fs, n: nat, extents: seq<Extent>, spans: seq<Span>, ss: set<Slot>)
    requires InodesOk(f.inodes) && n in f.inodes && InodesOk(g.inodes) && n in g.inodes
    requires Filled(sb, f, g, n, ss) && ExtentsOk(f, n, extents, spans)
    ensures ExtentsOk(g, n, extents, spans)
  {
    hide Filled, Ptr;
    forall i | 0 <= i < |spans|
      ensures ExtentOk(g, n, extents[i], spans[i])
    {
      assert ExtentOk(f, n, extents[i], spans[i]);
      PtrKept(sb, f, g, n, ss, SlotOf(spans[i].first));
    }
  }

  lemma MappedMore(sb: Super, f: Fs, g: Fs, n: nat, first: nat, end: nat)
    requires InodesOk(f.inodes) && n in f.inodes && InodesOk(g.inodes) && n in g.inodes
    requires first <= end <= MAXFILE && AllMapped(f, n, first) && Filled(sb, f, g, n, Paths(first, end))
    ensures AllMapped(g, n, end)
  {
    hide Filled, Ptr, Paths, Path;
    forall j | 0 <= j < end
      ensures Empty(g, n, Path(j)) == {}
    {
      if first <= j {
        PathInPaths(first, j, end);
      } else {
        assert Empty(f, n, Path(j)) == {};
      }
      forall s | s in Path(j)
        ensures Ptr(g, Place(n, s)) != 0
      {
        PtrKept(sb, f, g, n, Paths(first, end), s);
        assert j < first ==> s !in Empty(f, n, Path(j));
      }
    }
  }

  lemma PathInPaths(lo: nat, j: nat, hi: nat)
    requires lo <= j < hi <= MAXFILE
    ensures Path(j) <= Paths(lo, hi)
  {
    PathsMono(j, j + 1, lo, hi);
  }

  /** The size field has no part in it. */
  lemma SizeGrown(sb: Super, f: Fs, g: Fs, n: nat, ss: set<Slot>, end: nat)
    requires Filled(sb, f, g, n, ss) && n in g.inodes
    ensures var h := SetSize(g, n, end); Filled(sb, f, h, n, ss) && Owned(sb, h)
  {
    hide Owned, Filled;
    FilledParts(sb, f, g, n, ss);
    SizeSet(sb, g, n, end);
    var h := SetSize(g, n, end);
    FilledParts(sb, g, h, n, {});
    FilledBoth(sb, f, g, h, n, ss, {});
    assert ss + {} == ss;
  }

  lemma SizeApart(sb: Super, g: Fs, n: nat, end: nat, extents: seq<Extent>, spans: seq<Span>, k: nat)
    requires Owned(sb, g) && Holds(g, n, spans) && ExtentsOk(g, n, extents, spans) && AllMapped(g, n, k)
    ensures var h := SetSize(g, n, end); Holds(h, n, spans) && ExtentsOk(h, n, extents, spans) && AllMapped(h, n, k)
  {
    hide Owned, Filled, Empty;
    SizeSet(sb, g, n, end);
    var h := SetSize(g, n, end);
    forall i | 0 <= i < |spans|
      ensures ExtentOk(h, n, extents[i], spans[i])
    {
      assert ExtentOk(g, n, extents[i], spans[i]);
    }
  }

  /** The extents in use describe the writes one by one, and the file's blocks
      hold their data. */
  ghost predicate Describes(sb: Super, f: Fs, n: nat, extentz: seq<Extent>, numExtents: nat, sisterblocks: nat, spans: seq<Span>) {
    && Owned(sb, f) && Holds(f, n, spans) && Laid(spans, 0)
    && |extentz| == NDIRECT && numExtents == |spans| <= NDIRECT
    && ExtentsOk(f, n, extentz[..numExtents], spans) && sisterblocks == BlocksEnd(spans)
    && AllMapped(f, n, sisterblocks)
  }

  /** One more write, from its data to the size of the file: the extent e goes to
      slot k when there is one. */
  lemma Appended(sb: Super, f: Fs, g: Fs, n: nat, extentz: seq<Extent>, k: nat, spans: seq<Span>, s: Span, e: Extent, end: nat)
    requires Describes(sb, f, n, extentz, k, s.first, spans)
    requires SpanOk(s) && EndOf(s) <= MAXFILE && s.first < EndOf(s)
    requires Filled(sb, f, g, n, Paths(s.first, EndOf(s))) && Spliced(f, g, n, StartOf(s), s.data)
    requires n in g.inodes && InodesOk(g.inodes)
    requires e.length == EndOf(s) - s.first && e.start != 0 && e.start == Ptr(g, Place(n, SlotOf(s.first)))
    ensures var h := SetSize(g, n, end);
            && Holds(h, n, spans + [s]) && k <= NDIRECT && |extentz| == NDIRECT
            && (k < NDIRECT ==> Describes(sb, h, n, extentz[k := e], k + 1, EndOf(s), spans + [s]))
            && (k == NDIRECT ==> forall ez, num, sis :: !Describes(sb, h, n, ez, num, sis, spans + [s]))
  {
    hide Owned, Paths, Holds, ExtentsOk, Laid, AllMapped, Filled, Spliced;
    var ez := extentz[..k];
    SpanAdded(sb, f, g, n, ez, spans, s, e);
    SizeGrown(sb, f, g, n, Paths(s.first, EndOf(s)), end);
    SizeApart(sb, g, n, end, ez + [e], spans + [s], EndOf(s));
    if k < NDIRECT {
      assert extentz[k := e][..k + 1] == ez + [e];
    }
  }

  /** The extent part of one cached inode, in the order of its fields: numExtents
      and sisterblocks come right behind the array. */
  class ExtentFile {
    const fs: Volume
    const n: nat
    var extentz: seq<Extent>
    var numExtents: nat
    var sisterblocks: nat
    var lOffset: nat
    ghost var spans: seq<Span>       // the writes so far

    ghost predicate Valid()
      reads this, fs
    {
      Describes(fs.sb, fs.Now(), n, extentz, numExtents, sisterblocks, spans)
    }

    /** open with O_EXTENT: a new inode, whose blocks are all holes. */
    constructor (v: Volume, inum: nat)
      requires Owned(v.sb, v.Now()) && Holds(v.Now(), inum, [])
      ensures fs == v && n == inum && Valid() && spans == [] && lOffset == 0
    {
      fs, n, extentz, numExtents, sisterblocks, lOffset := v, inum, seq(NDIRECT, _ => Extent(0, 0)), 0, 0, 0;
      spans := [];
    }

    /** The rest of open: reading starts over. */
    method Open()
      modifies this`lOffset
      ensures lOffset == 0
    {
      lOffset := 0;
    }

    /** extentz[i] = e. At i == NDIRECT the store lands on the two fields behind
        the array. */
    method StoreExtent(i: nat, e: Extent)
      requires |extentz| == NDIRECT && i <= NDIRECT
      modifies this`extentz, this`numExtents, this`sisterblocks
      ensures i < NDIRECT ==> extentz == old(extentz)[i := e] && numExtents == old(numExtents) && sisterblocks == old(sisterblocks)
      ensures i == NDIRECT ==> extentz == old(extentz) && numExtents == e.length && sisterblocks == e.start
    {
      if i < NDIRECT {
        extentz := extentz[i := e];
      } else {
        numExtents, sisterblocks := e.length, e.start;
      }
    }

    /** writei on an extent file. The blocks come after all earlier ones whatever
        the offset is; only the place inside the first block depends on it. The
        process exits when there are more than NDIRECT extents already, so one
        write more than the array holds is let through: it stores the data, but
        the extents are in order afterwards exactly when there was a free one.
        Whatever state it starts from, a write no longer than filewrite's never
        brings the count past NDIRECT, so that exit is not reached from there. */
    method Write(off: uint, src: seq<byte>) returns (r: int, exited: bool)
      requires Owned(fs.sb, fs.Now()) && n in fs.inodes && |extentz| == NDIRECT
      requires src != [] && |src| < UINT_LIMIT && fs.outstanding >= 1
      requires BSIZE * sisterblocks + off % BSIZE + |src| <= MAXBYTES
      requires |Empty(fs.Now(), n, Paths(sisterblocks, EndBlock(BSIZE * sisterblocks + off % BSIZE, |src|)))| <= |FreeBlocks(fs.sb, fs.disk)|
      modifies this, fs`disk, fs`inodes, fs`dinodes, fs`owner, fs`logged
      ensures |extentz| == NDIRECT
      ensures r == -1 <==> off > old(fs.inodes)[n].size || off + |src| > MAXBYTES
      ensures exited <==> r != -1 && old(numExtents) > NDIRECT
      ensures r == -1 || exited ==>
                && fs.Now() == old(fs.Now()) && spans == old(spans) && lOffset == old(lOffset)
                && extentz == old(extentz) && numExtents == old(numExtents) && sisterblocks == old(sisterblocks)
      ensures r != -1 && !exited ==>
                var s := Span(old(sisterblocks), off % BSIZE, src);
                && r == |src| && spans == old(spans) + [s] && SpanOk(s) && lOffset == 0 && EndOf(s) <= MAXFILE
                && Filled(fs.sb, old(fs.Now()), fs.Now(), n, Paths(s.first, EndOf(s)))
                && n in fs.inodes && fs.inodes[n].size == old(fs.inodes)[n].size + |src|
                && (old(Valid()) ==> Holds(fs.Now(), n, spans) && (Valid() <==> old(numExtents) < NDIRECT))
                && (if old(numExtents) < NDIRECT then
                      numExtents == old(numExtents) + 1 && extentz[..old(numExtents)] == old(extentz)[..old(numExtents)]
                    else
                      numExtents == EndOf(s) - s.first && fs.sb.Data(sisterblocks) && extentz == old(extentz))
      ensures old(numExtents) <= NDIRECT && |src| <= MAXCHUNK ==> numExtents <= NDIRECT
    {
      hide Owned, Paths, Empty, FreeBlocks, EndBlock, Holds, Filled, Describes;
      if off > fs.inodes[n].size || (off + |src|) % UINT_LIMIT < off || off + |src| > MAXBYTES {
        return -1, false;
      }
      if numExtents > NDIRECT {
        return |src|, true;
      }
      ghost var s := Span(sisterblocks, off % BSIZE, src);
      EndIs(s);
      ShortSpan(s);
      Append(off, src);
      return |src|, false;
    }

    /** The part of that write after its tests. */
    method Append(off: uint, src: seq<byte>)
      requires Owned(fs.sb, fs.Now()) && n in fs.inodes && |extentz| == NDIRECT && numExtents <= NDIRECT
      requires src != [] && fs.outstanding >= 1 && BSIZE * sisterblocks + off % BSIZE + |src| <= MAXBYTES
      requires |Empty(fs.Now(), n, Paths(sisterblocks, EndBlock(BSIZE * sisterblocks + off % BSIZE, |src|)))| <= |FreeBlocks(fs.sb, fs.disk)|
      modifies this, fs`disk, fs`inodes, fs`dinodes, fs`owner, fs`logged
      ensures var s := Span(old(sisterblocks), off % BSIZE, src);
              && spans == old(spans) + [s] && SpanOk(s) && lOffset == 0 && EndOf(s) <= MAXFILE
              && Filled(fs.sb, old(fs.Now()), fs.Now(), n, Paths(s.first, EndOf(s)))
              && n in fs.inodes && fs.inodes[n].size == old(fs.inodes)[n].size + |src|
              && (old(Valid()) ==> Holds(fs.Now(), n, spans) && (Valid() <==> old(numExtents) < NDIRECT))
              && |extentz| == NDIRECT
              && if old(numExtents) < NDIRECT then
                   numExtents == old(numExtents) + 1 && extentz[..old(numExtents)] == old(extentz)[..old(numExtents)]
                 else
                   numExtents == EndOf(s) - s.first && fs.sb.Data(sisterblocks) && extentz == old(extentz)
    {
      hide Owned, Paths, Empty, FreeBlocks, EndBlock, Holds, Filled, Spliced, Describes, SameSizes, InodesOk;
      ghost var f, ez, k, was, ok := fs.Now(), extentz, numExtents, spans, Valid();
      ghost var s := Span(sisterblocks, off % BSIZE, src);
      EndIs(s);
      numExtents := numExtents + 1;
      var start, length := WriteBlocks(off, src);
      ghost var g := fs.Now();
      var e := Extent(length, start);
      SizeGrown(fs.sb, f, g, n, Paths(s.first, EndOf(s)), fs.inodes[n].size + |src|);
      FilledParts(fs.sb, f, g, n, Paths(s.first, EndOf(s)));
      StartIsData(fs.sb, g, n, s.first);
      if ok {
        Appended(fs.sb, f, g, n, ez, k, was, s, e, fs.inodes[n].size + |src|);
      }
      StoreExtent(numExtents - 1, e);
      spans := spans + [s];
      SizesKept(f, g, n);
      fs.inodes := fs.inodes[n := fs.inodes[n].(size := fs.inodes[n].size + |src|)];
      fs.dinodes := fs.dinodes[n := fs.inodes[n]];
      var _ := fs.LogWrite(InodeBlock(fs.sb, n));
      lOffset := 0;
    }

    /** readi on an extent file: one block, up to its first NUL. */
    method Read() returns (d: seq<byte>)
      requires Valid()
      modifies this`lOffset, fs`disk, fs`inodes, fs`owner, fs`logged
      ensures Valid() && fs.Now() == old(fs.Now())
      ensures old(lOffset) >= sisterblocks ==> d == [] && lOffset == old(lOffset)
      ensures old(lOffset) < sisterblocks ==>
                && lOffset == old(lOffset) + 1 && BSIZE * old(lOffset) + BSIZE <= MAXBYTES
                && d == Text(Slice(fs.Now(), n, BSIZE * old(lOffset), BSIZE))
                && (NulFree(spans) ==> d == PieceAt(spans, old(lOffset)))
    {
      hide Owned, Holds, ExtentsOk, Laid, Empty, BlocksEnd, Text, PieceAt, NulFree, Slice, Extended, LoggedOnly, FreeBlocks, Path;
      if lOffset >= sisterblocks {
        return [];
      }
      OwnedFacts(fs.sb, fs.Now());
      HoldsFacts(fs.Now(), n, spans);
      assert Empty(fs.Now(), n, Path(lOffset)) == {};
      ghost var f := fs.Now();
      var addr, _ := fs.Bmap(n, lOffset);
      assert fs.Now() == f;
      ReadIs(fs.sb, f, n, spans, lOffset);
      d := Text(fs.disk[addr]);
      lOffset := lOffset + 1;
    }

    /** open, and read until a read returns nothing: the concatenation of all
        writes, if they hold no NUL and each of them started at a block boundary,
        and only then. A write that started inside a block ends the reading before
        its data, or loses its first part. */
    method ReadAll() returns (out: seq<byte>)
      requires Valid()
      modifies this`lOffset, fs`disk, fs`inodes, fs`owner, fs`logged
      ensures Valid() && fs.Now() == old(fs.Now())
      ensures NulFree(spans) ==> (out == AllData(spans) <==> forall i :: 0 <= i < |spans| ==> spans[i].o == 0)
      ensures NulFree(spans) && (forall i :: 0 <= i < |spans| ==> spans[i].o == 0) ==> lOffset >= sisterblocks
    {
      hide Owned, Holds, ExtentsOk, Laid, AllMapped, BlocksEnd, Text, PieceAt, NulFree, Slice;
      Open();
      out := [];
      var d := Read();
      ghost var k := 0;
      while d != []
        invariant Valid() && fs.Now() == old(fs.Now()) && spans == old(spans) && 0 <= k <= lOffset <= sisterblocks
        invariant NulFree(spans) ==> out == Reads(spans, k)
        invariant if d == [] then k == lOffset || lOffset == k + 1 else lOffset == k + 1
        invariant NulFree(spans) && lOffset == k + 1 ==> d == PieceAt(spans, k)
        invariant lOffset == k ==> k == sisterblocks
        decreases sisterblocks - k
      {
        out := out + d;
        k := k + 1;
        d := Read();
      }
      if NulFree(spans) {
        StoppedAt(spans, k);
      }
    }

    /** The loop of that write. */
    method WriteBlocks(off: uint, src: seq<byte>) returns (start: uint, length: nat)
      requires Owned(fs.sb, fs.Now()) && n in fs.inodes && src != [] && fs.outstanding >= 1
      requires BSIZE * sisterblocks + off % BSIZE + |src| <= MAXBYTES
      requires |Empty(fs.Now(), n, Paths(sisterblocks, EndBlock(BSIZE * sisterblocks + off % BSIZE, |src|)))| <= |FreeBlocks(fs.sb, fs.disk)|
      modifies this`sisterblocks, fs`disk, fs`inodes, fs`owner, fs`logged
      ensures var at := BSIZE * old(sisterblocks) + off % BSIZE;
              && sisterblocks == EndBlock(at, |src|) && length == sisterblocks - old(sisterblocks)
              && Filled(fs.sb, old(fs.Now()), fs.Now(), n, Paths(old(sisterblocks), sisterblocks))
              && SameSizes(old(fs.Now()), fs.Now()) && Spliced(old(fs.Now()), fs.Now(), n, at, src)
      ensures old(sisterblocks) < MAXFILE && fs.Now().inodes == fs.inodes && n in fs.inodes && InodesOk(fs.inodes)
      ensures start != 0 && start == Ptr(fs.Now(), Place(n, SlotOf(old(sisterblocks))))
    {
      hide Filled, LoggedOnly, Owned, Paths, Path, Empty, FreeBlocks, EndBlock, LoopAt, ChunkAt, InodesOk, SameSizes, Spliced, Ready;
      ghost var f, lg := fs.Now(), fs.logged;
      var lo := sisterblocks;
      ghost var at := BSIZE * sisterblocks + off % BSIZE;
      ghost var hi := EndBlock(at, |src|);
      DivIs(at, BSIZE, sisterblocks, off % BSIZE);
      LoopStart(fs.sb, f, lg, n, at, |src|);
      ReadyStart(fs.sb, f, n, lo, hi, fs.outstanding);
      SplicedNothing(f, n, at);
      var tot, o := 0, off;
      length := 0;
      start := 0;
      while tot < |src|
        invariant 0 <= tot <= |src| && o == off + tot && length == sisterblocks - lo
        invariant lo <= sisterblocks <= hi && (if tot < |src| then sisterblocks == ChunkAt(at + tot, |src| - tot).k else sisterblocks == hi)
        invariant LoopAt(fs.sb, f, fs.Now(), lg, fs.logged, n, lo, sisterblocks) && Ready(fs.sb, fs.Now(), n, sisterblocks, hi, fs.outstanding)
        invariant Spliced(f, fs.Now(), n, at, src[..tot])
      {
        NextPiece(off, tot, at, lo, |src|);
        var m := if |src| - tot < BSIZE - o % BSIZE then |src| - tot else BSIZE - o % BSIZE;
        fs.WriteStep(f, lg, n, lo, Chunk(sisterblocks, o % BSIZE, m), hi, at, src[..tot], src[tot..tot + m]);
        assert src[..tot] + src[tot..tot + m] == src[..tot + m];
        sisterblocks := sisterblocks + 1;
        length := length + 1;
        tot := tot + m;
        o := o + m;
      }
      assert src[..tot] == src;
      LoopDone(fs.sb, f, fs.Now(), lg, fs.logged, n, lo, hi);
      EndIs(Span(lo, off % BSIZE, src));
      start := StartAddress(f, lo);
    }

    /** bmap of the first block, which is mapped by now. */
    method StartAddress(ghost f: Fs, first: nat) returns (a: uint)
      requires first < sisterblocks <= MAXFILE && Filled(fs.sb, f, fs.Now(), n, Paths(first, sisterblocks))
      modifies fs`disk, fs`inodes, fs`owner, fs`logged
      ensures fs.Now() == old(fs.Now()) && n in fs.inodes && InodesOk(fs.inodes) && a != 0 && a == Ptr(fs.Now(), Place(n, SlotOf(first)))
    {
      hide Filled, Owned;
      FirstMapped(fs.sb, f, fs.Now(), n, first, sisterblocks);
      var x, _ := fs.Bmap(n, first);
      a := x;
    }
  }

  lemma SizesKept(f: Fs, g: Fs, n: nat)
    requires SameSizes(f, g) && n in f.inodes
    ensures n in g.inodes && g.inodes[n].size == f.inodes[n].size
  {
  }

  lemma StartIsData(sb: Super, f: Fs, n: nat, first: nat)
    requires Owned(sb, f) && n in f.inodes && InodesOk(f.inodes) && first < MAXFILE
    ensures var a := Ptr(f, Place(n, SlotOf(first))); a != 0 ==> sb.Data(a)
  {
    PtrIs(sb, f, Place(n, SlotOf(first)));
  }

  lemma HoldsFacts(f: Fs, n: nat, spans: seq<Span>)
    requires Holds(f, n, spans)
    ensures n in f.inodes && InodesOk(f.inodes)
  {
  }

  /** A mapped block holds the file's bytes. */
  lemma BlockSlice(sb: Super, f: Fs, n: nat, k: nat)
    requires Owned(sb, f) && InodesOk(f.inodes) && n in f.inodes && k < MAXFILE && Ptr(f, Place(n, SlotOf(k))) != 0
    ensures BSIZE * k + BSIZE <= MAXBYTES && Ptr(f, Place(n, SlotOf(k))) < |f.disk|
    ensures f.disk[Ptr(f, Place(n, SlotOf(k)))] == Slice(f, n, BSIZE * k, BSIZE)
  {
    MulMono(BSIZE, k + 1, MAXFILE);
    PtrIs(sb, f, Place(n, SlotOf(k)));
    var b := f.disk[Ptr(f, Place(n, SlotOf(k)))];
    forall x | 0 <= x < BSIZE
      ensures b[x] == Slice(f, n, BSIZE * k, BSIZE)[x]
    {
      DivIs(BSIZE * k + x, BSIZE, k, x);
      assert Slice(f, n, BSIZE * k, BSIZE)[x] == ByteOf(f, n, BSIZE * k + x);
    }
  }

  /** The span that block k belongs to. */
  ghost function SpanAt(spans: seq<Span>, k: nat): (i: nat)
    requires Laid(spans, 0) && k < BlocksEnd(spans)
    ensures i < |spans| && SpanOk(spans[i]) && spans[i].first <= k < EndOf(spans[i])
    decreases |spans|
  {
    LaidInit(spans);
    var j := |spans| - 1;
    if spans[j].first <= k then j else SpanAt(spans[..j], k)
  }

  ghost function PieceAt(spans: seq<Span>, k: nat): (d: seq<byte>)
    requires Laid(spans, 0) && k < BlocksEnd(spans)
  {
    Piece(spans[SpanAt(spans, k)], k)
  }

  lemma ReadIs(sb: Super, f: Fs, n: nat, spans: seq<Span>, k: nat)
    requires Owned(sb, f) && InodesOk(f.inodes) && n in f.inodes && Holds(f, n, spans) && Laid(spans, 0)
    requires k < BlocksEnd(spans) && k < MAXFILE && Empty(f, n, Path(k)) == {}
    ensures var p := Ptr(f, Place(n, SlotOf(k)));
            && p < |f.disk| && BSIZE * k + BSIZE <= MAXBYTES && f.disk[p] == Slice(f, n, BSIZE * k, BSIZE)
            && (NulFree(spans) ==> Text(f.disk[p]) == PieceAt(spans, k))
  {
    hide Owned, Holds, Laid, Text, Piece, EndOf, SpanOk, BlocksEnd, SpanAt, NulFree;
    assert Ptr(f, Place(n, SlotOf(k))) != 0 by { assert SlotOf(k) !in Empty(f, n, Path(k)); }
    BlockSlice(sb, f, n, k);
    if NulFree(spans) {
      BlockRead(f, n, spans, SpanAt(spans, k), k);
    }
  }

  /** All reads after open, one after the other. */
  ghost function Reads(spans: seq<Span>, k: nat): (d: seq<byte>)
    requires Laid(spans, 0) && k <= BlocksEnd(spans)
  {
    if k == 0 then [] else Reads(spans, k - 1) + PieceAt(spans, k - 1)
  }

  /** They amount to the spans' pieces. */
  lemma {:induction false} ReadsAre(spans: seq<Span>)
    requires Laid(spans, 0)
    ensures (forall i :: 0 <= i < |spans| ==> SpanOk(spans[i])) && Reads(spans, BlocksEnd(spans)) == AllPieces(spans)
    decreases |spans|
  {
    hide Pieces, SpanOk, EndOf, PieceAt, LaidAt, Laid;
    AllOk(spans);
    if spans != [] {
      LaidInit(spans);
      var j := |spans| - 1;
      var s := spans[j];
      EndIs(s);
      ReadsAre(spans[..j]);
      ReadsPrefix(spans, s.first);
      ReadsSpan(spans, s.first);
    }
  }

  lemma AllOk(spans: seq<Span>)
    requires Laid(spans, 0)
    ensures forall i :: 0 <= i < |spans| ==> SpanOk(spans[i])
  {
    forall i | 0 <= i < |spans|
      ensures SpanOk(spans[i])
    {
      assert LaidAt(spans, 0, i);
    }
  }

  lemma {:induction false} ReadsPrefix(spans: seq<Span>, k: nat)
    requires Laid(spans, 0) && spans != [] && k <= spans[|spans| - 1].first
    ensures Laid(spans[..|spans| - 1], 0) && k <= BlocksEnd(spans[..|spans| - 1]) && k <= BlocksEnd(spans)
    ensures Reads(spans, k) == Reads(spans[..|spans| - 1], k)
    decreases k
  {
    LaidInit(spans);
    EndIs(spans[|spans| - 1]);
    if k > 0 {
      ReadsPrefix(spans, k - 1);
    }
  }

  lemma {:induction false} ReadsSpan(spans: seq<Span>, k: nat)
    requires Laid(spans, 0) && spans != [] && SpanOk(spans[|spans| - 1]) && spans[|spans| - 1].first <= k <= BlocksEnd(spans)
    ensures Reads(spans, BlocksEnd(spans)) == Reads(spans, k) + Pieces(spans[|spans| - 1], k)
    decreases BlocksEnd(spans) - k
  {
    hide Piece, PieceAt, Laid, SpanOk;
    var s := spans[|spans| - 1];
    if k < BlocksEnd(spans) {
      ReadsSpan(spans, k + 1);
      LastPiece(spans, k);
      assert Reads(spans, k + 1) == Reads(spans, k) + Piece(s, k);
      assert Pieces(s, k) == Piece(s, k) + Pieces(s, k + 1);
    }
  }

  lemma LastPiece(spans: seq<Span>, k: nat)
    requires Laid(spans, 0) && spans != [] && SpanOk(spans[|spans| - 1]) && spans[|spans| - 1].first <= k < BlocksEnd(spans)
    ensures PieceAt(spans, k) == Piece(spans[|spans| - 1], k)
  {
    hide Piece, SpanOk;
  }

  /** Extent read-back: reading block by block to the end gives the concatenation
      of all writes exactly when each of them started at a block boundary. */
  lemma ExtentReadBack(spans: seq<Span>)
    requires Laid(spans, 0)
    ensures Reads(spans, BlocksEnd(spans)) == AllData(spans) <==> forall i :: 0 <= i < |spans| ==> spans[i].o == 0
  {
    ReadsAre(spans);
    ReadBackExact(spans);
  }

  lemma {:induction false} ReadsGrow(spans: seq<Span>, k: nat)
    requires Laid(spans, 0) && k <= BlocksEnd(spans)
    ensures |Reads(spans, k)| <= |Reads(spans, BlocksEnd(spans))|
    decreases BlocksEnd(spans) - k
  {
    hide PieceAt, Laid, BlocksEnd;
    if k < BlocksEnd(spans) {
      ReadsGrow(spans, k + 1);
    }
  }

  /** Only a span that does not start at a block boundary has an empty piece. */
  lemma PieceEmpty(s: Span, k: nat)
    requires SpanOk(s) && s.first <= k < EndOf(s) && Piece(s, k) == []
    ensures s.o > 0
  {
    hide Piece;
    if k == s.first {
      PieceFirst(s);
    } else {
      PieceInside(s, k);
    }
  }

  /** A reader who stops at the end or at the first empty read has everything
      exactly when every write started at a block boundary. */
  lemma StoppedAt(spans: seq<Span>, k: nat)
    requires Laid(spans, 0) && k <= BlocksEnd(spans) && (k < BlocksEnd(spans) ==> PieceAt(spans, k) == [])
    ensures Reads(spans, k) == AllData(spans) <==> forall i :: 0 <= i < |spans| ==> spans[i].o == 0
    ensures (forall i :: 0 <= i < |spans| ==> spans[i].o == 0) ==> k == BlocksEnd(spans)
  {
    hide Laid, BlocksEnd, SpanOk, Reads, SpanAt, Piece, AllData, EndOf;
    ExtentReadBack(spans);
    if k < BlocksEnd(spans) {
      var i := SpanAt(spans, k);
      PieceEmpty(spans[i], k);
      ReadsGrow(spans, k);
      ReadsAre(spans);
      Shorter(spans);
    }
  }

  /** The lengths of the extents add up to the number of blocks. */
  lemma {:induction false} LengthsAddUp(f: Fs, n: nat, extents: seq<Extent>, spans: seq<Span>)
    requires InodesOk(f.inodes) && n in f.inodes && Laid(spans, 0) && ExtentsOk(f, n, extents, spans)
    ensures TotalLength(extents) == BlocksEnd(spans)
    decreases |spans|
  {
    if spans != [] {
      LaidInit(spans);
      var j := |spans| - 1;
      forall i | 0 <= i < j
        ensures ExtentOk(f, n, extents[..j][i], spans[..j][i])
      {
        assert ExtentOk(f, n, extents[i], spans[i]);
      }
      LengthsAddUp(f, n, extents[..j], spans[..j]);
      assert ExtentOk(f, n, extents[j], spans[j]);
      EndIs(spans[j]);
    }
  }

  function TotalLength(extents: seq<Extent>): (k: nat) {
    if extents == [] then 0 else TotalLength(extents[..|extents| - 1]) + extents[|extents| - 1].length
  }

  lemma FirstMapped(sb: Super, f: Fs, g: Fs, n: nat, first: nat, end: nat)
    requires first < end <= MAXFILE && Filled(sb, f, g, n, Paths(first, end))
    ensures Owned(sb, g) && n in g.inodes && InodesOk(g.inodes)
    ensures Empty(g, n, Path(first)) == {} && Ptr(g, Place(n, SlotOf(first))) != 0
  {
    PathsSplit(first, first, end);
    assert forall s :: s in Path(first) ==> s in Paths(first, end);
  }

  lemma SamePlace(off: nat, tot: nat, at: nat, k: nat)
    requires at == BSIZE * k + off % BSIZE
    ensures (at + tot) % BSIZE == (off + tot) % BSIZE
  {
    var a, b := off / BSIZE, off % BSIZE;
    var q, x := (b + tot) / BSIZE, (b + tot) % BSIZE;
    DivIs(at + tot, BSIZE, k + q, x);
    DivIs(off + tot, BSIZE, a + q, x);
  }

  /** The next chunk, found through the file offset instead of the block's. */
  lemma NextPiece(off: nat, tot: nat, at: nat, k: nat, len: nat)
    requires at == BSIZE * k + off % BSIZE && tot < len
    ensures var c := ChunkAt(at + tot, len - tot);
            var o := (off + tot) % BSIZE;
            var m := if len - tot < BSIZE - o then len - tot else BSIZE - o;
            && c.o == o && c.m == m && at + tot == BSIZE * c.k + o && 0 < m <= len - tot && o + m <= BSIZE
            && c.k < EndBlock(at, len)
            && (tot + m < len ==> ChunkAt(at + (tot + m), len - (tot + m)).k == c.k + 1)
            && (tot + m == len ==> EndBlock(at, len) == c.k + 1)
  {
    SamePlace(off, tot, at, k);
    NextChunk(at, tot, len);
  }

  lemma OneBlockRoom(f: Fs, n: nat, k: nat)
    requires InodesOk(f.inodes) && n in f.inodes && k <= NDIRECT
    ensures EndBlock(BSIZE * k + k, 1) == k + 1 && |Empty(f, n, Paths(k, k + 1))| <= 2
  {
    DivIs(BSIZE * k + k, BSIZE, k, k);
    assert Paths(k + 1, k + 1) == {};
    SubsetSize(Empty(f, n, Paths(k, k + 1)), if k < NDIRECT then {Direct(k)} else {Single, InSingle(0)});
    assert |{Direct(k)}| <= 2 && |{Single, InSingle(0)}| <= 2;
  }

  lemma RoomLeft(sb: Super, f: Fs, g: Fs, n: nat, k: nat)
    requires k <= NDIRECT && Filled(sb, f, g, n, Paths(k, k + 1))
    ensures sb.Ok() && sb.size <= |f.disk| && sb.size <= |g.disk|
    ensures |FreeBlocks(sb, g.disk)| + 2 >= |FreeBlocks(sb, f.disk)|
  {
    OneBlockRoom(f, n, k);
  }

  /** Byte i of a file that is written byte by byte. */
  method OneMore(e: ExtentFile, i: nat)
    requires i <= NDIRECT && e.Valid() && |e.spans| == i && e.sisterblocks == i
    requires e.n in e.fs.inodes && e.fs.inodes[e.n].size == i && e.fs.outstanding >= 1 && |FreeBlocks(e.fs.sb, e.fs.disk)| >= 2
    modifies e, e.fs
    ensures |e.spans| == i + 1 && e.n in e.fs.inodes && e.fs.inodes[e.n].size == i + 1 && e.fs.outstanding == old(e.fs.outstanding)
    ensures e.fs.sb.Ok() && e.fs.sb.size <= |old(e.fs.disk)| && e.fs.sb.size <= |e.fs.disk|
    ensures |FreeBlocks(e.fs.sb, e.fs.disk)| + 2 >= |FreeBlocks(e.fs.sb, old(e.fs.disk))|
    ensures i < NDIRECT ==> e.Valid() && e.sisterblocks == i + 1
    ensures i == NDIRECT ==> !e.Valid() && e.numExtents == 1 && e.fs.sb.Data(e.sisterblocks)
  {
    hide Owned, Filled, FreeBlocks, Empty, Paths, Holds, Laid, ExtentsOk, AllMapped, EndBlock;
    ghost var f := e.fs.Now();
    OwnedFacts(e.fs.sb, f);
    OneBlockRoom(f, e.n, i);
    var _, _ := e.Write(i, [65]);
    RoomLeft(e.fs.sb, f, e.fs.Now(), e.n, i);
  }

  /** Twelve writes of one byte to a new extent file: the twelfth is let through,
      and leaves one extent instead of twelve and a block number for the count of
      blocks. */
  method TwelveWrites(v: Volume, inum: nat) returns (e: ExtentFile)
    requires Owned(v.sb, v.Now()) && Holds(v.Now(), inum, []) && v.inodes[inum].size == 0
    requires v.outstanding >= 1 && |FreeBlocks(v.sb, v.disk)| >= 24
    modifies v
    ensures |e.spans| == 12 && !e.Valid() && e.numExtents == 1 && v.sb.Data(e.sisterblocks)
  {
    hide Owned, Filled, FreeBlocks, Empty, Paths, Holds, Laid, ExtentsOk, AllMapped, EndBlock;
    OwnedFacts(v.sb, v.Now());
    HoldsFacts(v.Now(), inum, []);
    e := new ExtentFile(v, inum);
    var i: nat := 0;
    while i < 11
      invariant i <= 11 && e.fs == v && e.n == inum && fresh(e) && e.Valid() && |e.spans| == i && e.sisterblocks == i
      invariant inum in v.inodes && v.inodes[inum].size == i && v.sb.Ok() && v.sb.size <= |v.disk|
      invariant |FreeBlocks(v.sb, v.disk)| >= 24 - 2 * i
      invariant v.outstanding >= 1
    {
      OneMore(e, i);
      i := i + 1;
    }
    OneMore(e, 11);
  }
}
