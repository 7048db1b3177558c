/** The redo log over the buffer cache: transaction bookkeeping in memory, and
    commit and recovery as they drive the cache and the disk. */
module Log {
  import opened Blocks
  import opened DiskLog
  import opened BufferCache

  /** Some buffer holds unwritten updates of the block. */
  ghost predicate Pinned(s: seq<Buf>, bno: nat)
    requires |s| == NBUF + 1
  {
    exists b: nat :: b < NBUF && Caches(s[b], bno) && s[b].dirty
  }

  /** A buffer that some process is reading, of a block that the log has nothing
      to do with: not in its area, not in the list bl, and not changed. */
  ghost predicate Reading(u: Buf, disk: Disk, logical: Disk, l: Layout, bl: seq<nat>)
    requires |disk| == |logical|
  {
    && u.blockno < |disk| && disk[u.blockno] == logical[u.blockno]
    && u.blockno !in bl && !(l.start <= u.blockno < l.start + l.size)
  }

  /** Whoever is inside a buffer is only reading, beside the log. */
  ghost predicate Quiet(s: seq<Buf>, disk: Disk, logical: Disk, l: Layout, bl: seq<nat>)
    requires |s| == NBUF + 1 && |disk| == |logical|
  {
    forall b :: 0 <= b < NBUF && s[b].holder != 0 ==> Reading(s[b], disk, logical, l, bl)
  }

  /** Nobody is inside a buffer of the block. */
  ghost predicate Unheld(s: seq<Buf>, bno: nat)
    requires |s| == NBUF + 1
  {
    forall b: nat :: b < NBUF && Caches(s[b], bno) ==> s[b].holder == 0
  }

  lemma QuietUnheld(s: seq<Buf>, disk: Disk, logical: Disk, l: Layout, bl: seq<nat>, bno: nat)
    requires |s| == NBUF + 1 && |disk| == |logical| && Quiet(s, disk, logical, l, bl)
    requires bno in bl || l.start <= bno < l.start + l.size
    ensures Unheld(s, bno)
  {
  }

  /** There is room to hold a log block and the home block at the same time. */
  ghost predicate Room(s: seq<Buf>, home: nat)
    requires |s| == NBUF + 1
  {
    || (Pinned(s, home) && exists c: nat :: c < NBUF && Recyclable(s[c]))
    || (exists c: nat, d: nat :: c < d < NBUF && Recyclable(s[c]) && Recyclable(s[d]))
  }

  /** When processes are only reading, an unpinned block is up to date on disk. */
  lemma UnpinnedOnDisk(s: seq<Buf>, disk: Disk, logical: Disk, l: Layout, bl: seq<nat>, bno: nat)
    requires Coherent(s, disk, logical) && Quiet(s, disk, logical, l, bl) && bno < |disk| && !Pinned(s, bno)
    ensures disk[bno] == logical[bno]
  {
  }

  lemma PinnedOnly(s: seq<Buf>, disk: Disk, logical: Disk, l: Layout, bl: seq<nat>)
    requires Coherent(s, disk, logical) && Quiet(s, disk, logical, l, bl)
    requires forall bno: nat :: bno < |disk| ==> (Pinned(s, bno) <==> bno in bl)
    ensures forall bno: nat :: bno < |disk| && bno !in bl ==> disk[bno] == logical[bno]
  {
    forall bno: nat | bno < |disk| && bno !in bl
      ensures disk[bno] == logical[bno]
    {
      UnpinnedOnDisk(s, disk, logical, l, bl, bno);
    }
  }

  lemma PinnedIsDirty(s: seq<Buf>, disk: Disk, logical: Disk, bno: nat)
    requires Coherent(s, disk, logical)
    ensures forall b: nat :: b < NBUF && Caches(s[b], bno) ==> (s[b].dirty <==> Pinned(s, bno))
    ensures forall b: nat :: b < NBUF && s[b].dirty ==>
              s[b].valid && s[b].blockno < |logical| && s[b].data == logical[s[b].blockno]
  {
  }

  /** Between s and t only buffer x changed: it was clean before, may serve
      another block now, and is unlocked; dirty says whether it is pinned. */
  ghost predicate OnlyTouched(s: seq<Buf>, t: seq<Buf>, x: nat)
    requires |s| == |t| == NBUF + 1
  {
    && x < NBUF
    && (forall c: nat :: c < NBUF && c != x ==> SameButLinks(t[c], s[c]))
    && t[x].holder == 0 && !t[x].dirty
    && (Recyclable(s[x]) ==> Recyclable(t[x]))
  }

  /** A write to a block of the log's leaves the readers alone. */
  lemma QuietKept(s: seq<Buf>, t: seq<Buf>, disk: Disk, logical: Disk, l: Layout, bl: seq<nat>, w: Write)
    requires |s| == |t| == NBUF + 1 && |disk| == |logical| && Quiet(s, disk, logical, l, bl)
    requires w.bno < |disk| && (w.bno in bl || l.start <= w.bno < l.start + l.size)
    requires forall c: nat :: c < NBUF && t[c].holder != 0 ==> SameButLinks(t[c], s[c])
    ensures Quiet(t, disk[w.bno := w.data], logical[w.bno := w.data], l, bl)
  {
    forall b | 0 <= b < NBUF && t[b].holder != 0
      ensures Reading(t[b], disk[w.bno := w.data], logical[w.bno := w.data], l, bl)
    {
      assert Reading(s[b], disk, logical, l, bl);
    }
  }

  lemma TouchedKeeps(s: seq<Buf>, t: seq<Buf>, x: nat)
    requires |s| == |t| == NBUF + 1 && OnlyTouched(s, t, x)
    ensures forall c: nat :: c < NBUF && t[c].holder != 0 ==> SameButLinks(t[c], s[c])
    ensures forall c: nat :: c < NBUF && Recyclable(s[c]) ==> Recyclable(t[c])
    ensures !s[x].dirty ==> forall bno: nat :: Pinned(t, bno) <==> Pinned(s, bno)
  {
    if !s[x].dirty {
      forall bno: nat
        ensures Pinned(t, bno) <==> Pinned(s, bno)
      {
        if Pinned(s, bno) {
          var b: nat :| b < NBUF && Caches(s[b], bno) && s[b].dirty;
          assert Caches(t[b], bno) && t[b].dirty;
        }
        if Pinned(t, bno) {
          var b: nat :| b < NBUF && Caches(t[b], bno) && t[b].dirty;
          assert Caches(s[b], bno) && s[b].dirty;
        }
      }
    }
  }

  /** Installing a block: x held its log copy, y held the block itself. */
  lemma InstalledKeeps(s: seq<Buf>, t: seq<Buf>, disk: Disk, logical: Disk, x: nat, y: nat, home: nat)
    requires |s| == |t| == NBUF + 1 && Coherent(s, disk, logical)
    requires x < NBUF && y < NBUF && x != y
    requires forall c: nat :: c < NBUF && c != x && c != y ==> SameButLinks(t[c], s[c])
    requires t[x].holder == 0 && !t[x].dirty && !s[x].dirty && (Recyclable(s[x]) ==> Recyclable(t[x]))
    requires t[y].holder == 0 && !t[y].dirty && (Recyclable(s[y]) ==> Recyclable(t[y]))
    requires s[y].dirty == Pinned(s, home) && (s[y].dirty ==> Caches(s[y], home))
    ensures forall c: nat :: c < NBUF && t[c].holder != 0 ==> SameButLinks(t[c], s[c])
    ensures forall c: nat :: c < NBUF && Recyclable(s[c]) ==> Recyclable(t[c])
    ensures forall bno: nat :: Pinned(t, bno) <==> Pinned(s, bno) && bno != home
  {
    forall bno: nat
      ensures Pinned(t, bno) <==> Pinned(s, bno) && bno != home
    {
      if Pinned(s, bno) && bno != home {
        var b: nat :| b < NBUF && Caches(s[b], bno) && s[b].dirty;
        assert Caches(t[b], bno) && t[b].dirty;
      }
      if Pinned(t, bno) {
        var b: nat :| b < NBUF && Caches(t[b], bno) && t[b].dirty;
        assert Caches(s[b], bno) && s[b].dirty;
      }
    }
  }

  lemma NotBefore(bl: seq<nat>, i: nat)
    requires Distinct(bl) && i < |bl|
    ensures bl[i] !in bl[..i]
  {
  }

  lemma RoomKept(s: seq<Buf>, t: seq<Buf>, home: nat)
    requires |s| == |t| == NBUF + 1 && Room(s, home)
    requires forall c: nat :: c < NBUF && Recyclable(s[c]) ==> Recyclable(t[c])
    requires Pinned(s, home) ==> Pinned(t, home)
    ensures Room(t, home)
  {
    if c: nat, d: nat :| c < d < NBUF && Recyclable(s[c]) && Recyclable(s[d]) {
      assert Recyclable(t[c]) && Recyclable(t[d]);
    } else {
      var c: nat :| c < NBUF && Recyclable(s[c]);
      assert Recyclable(t[c]);
    }
  }

  /** The contents of the listed blocks. */
  ghost function Pick(d: Disk, bl: seq<nat>): (data: seq<Block>)
    requires forall i :: 0 <= i < |bl| ==> bl[i] < |d|
    ensures |data| == |bl|
    ensures forall i :: 0 <= i < |bl| ==> data[i] == d[bl[i]]
  {
    seq(|bl|, i requires 0 <= i < |bl| => d[bl[i]])
  }

  /** A disk, the latest contents and the write history. */
  datatype Image = Image(disk: Disk, logical: Disk, writes: seq<Write>)

  /** e is what d becomes when the writes ws go through the cache to the disk. */
  ghost predicate Written(d: Image, ws: seq<Write>, e: Image) {
    && |d.disk| == |d.logical| && InRange(d.disk, ws)
    && e == Image(Apply(d.disk, ws), Apply(d.logical, ws), d.writes + ws)
  }

  lemma WrittenNothing(d: Image)
    requires |d.disk| == |d.logical|
    ensures Written(d, [], d)
  {
  }

  lemma WrittenOneMore(d: Image, ws: seq<Write>, k: nat, e: Image, w: Write)
    requires k < |ws| && w == ws[k] && w.bno < |d.disk| && Written(d, ws[..k], e)
    ensures |e.disk| == |d.disk| == |e.logical|
    ensures Written(d, ws[..k + 1], Image(e.disk[w.bno := w.data], e.logical[w.bno := w.data], e.writes + [w]))
  {
    assert ws[..k + 1][..k] == ws[..k];
    assert ws[..k + 1] == ws[..k] + [w];
  }

  lemma WrittenTwice(a: Image, u: seq<Write>, b: Image, v: seq<Write>, c: Image)
    requires Written(a, u, b) && Written(b, v, c)
    ensures Written(a, u + v, c)
  {
    ApplyAppend(a.disk, u, v);
    ApplyAppend(a.logical, u, v);
  }

  /** install_trans followed by write_head of an empty list is a recovery. */
  lemma RecoverySteps(l: Layout, a: Image, b: Image, c: Image)
    requires a.disk == a.logical && HeadOk(l, a.disk)
    requires Written(a, InstallWrites(HeadBlocks(l, a.disk), LoggedData(l, a.disk)), b)
    requires Written(b, [Write(l.start, PutHead(b.logical[l.start], []))], c)
    ensures c == Image(Recovered(l, a.disk), Recovered(l, a.disk), a.writes + RecoverWrites(l, a.disk))
    ensures HeadCount(l, c.disk) == 0
  {
    var ws := InstallWrites(HeadBlocks(l, a.disk), LoggedData(l, a.disk));
    ApplyFrame(a.disk, ws, l.start);
    WrittenTwice(a, ws, b, [Write(l.start, PutHead(b.logical[l.start], []))], c);
    RecoveredEffect(l, a.disk);
  }

  lemma EntriesAre(l: Layout, a: Image, data: seq<Block>, b: Image, w: Write, c: Image)
    requires l.Fits(a.disk) && |data| < l.size && w.bno == l.start
    requires Written(a, LogWrites(l, data), b) && Written(b, [w], c)
    ensures |c.logical| == |a.disk| && c.logical[l.start + 1..l.start + 1 + |data|] == data
    ensures b.logical[l.start] == a.logical[l.start] && c.logical[l.start] == w.data
  {
    assert LogWrites(l, data)[..|data|] == LogWrites(l, data);
    assert data[..|data|] == data;
    LogWritesEffect(l, a.logical, data, |data|);
    assert [w][..0] == [] && Apply(b.logical, []) == b.logical;
    assert Apply(b.logical, [w]) == Apply(b.logical, [w][..0])[w.bno := w.data];
  }

  /** The two halves of a commit issue the writes of CommitWrites. */
  lemma CommitHalves(l: Layout, a: Image, bl: seq<nat>, data: seq<Block>, c: Image, e: Image)
    requires l.Fits(a.disk) && |a.logical| == |a.disk| && Loggable(l, |a.disk|, bl) && 0 < |bl| == |data|
    requires var h := PutHead(a.logical[l.start], bl);
             && Written(a, LogWrites(l, data) + [Write(l.start, h)], c)
             && Written(c, InstallWrites(bl, data) + [Write(l.start, PutHead(h, []))], e)
    ensures Written(a, CommitWrites(l, a.logical[l.start], bl, data), e)
  {
    var h := PutHead(a.logical[l.start], bl);
    var u, v := LogWrites(l, data) + [Write(l.start, h)], InstallWrites(bl, data) + [Write(l.start, PutHead(h, []))];
    WrittenTwice(a, u, c, v, e);
    assert CommitWrites(l, a.logical[l.start], bl, data) == u + v;
  }

  lemma InstallKeepsHead(l: Layout, c: Image, bl: seq<nat>, data: seq<Block>, d: Image)
    requires l.Fits(c.disk) && |bl| == |data| && Loggable(l, |c.disk|, bl)
    requires Written(c, InstallWrites(bl, data), d)
    ensures |d.logical| == |c.disk| && d.logical[l.start] == c.logical[l.start]
  {
    ApplyFrame(c.logical, InstallWrites(bl, data), l.start);
  }

  /** Updating the disk with the pinned blocks gives the latest home blocks. */
  lemma PinsAreUpdates(l: Layout, a: Image, bl: seq<nat>)
    requires |a.logical| == |a.disk| && Loggable(l, |a.disk|, bl)
    requires forall b: nat :: b < |a.disk| && b !in bl ==> a.disk[b] == a.logical[b]
    ensures SameHome(l, Updated(a.disk, bl, Pick(a.logical, bl)), a.logical)
    ensures SameHome(l, Updated(a.logical, bl, Pick(a.logical, bl)), a.logical)
  {
    var data := Pick(a.logical, bl);
    UpdatedEffect(a.disk, bl, data);
    UpdatedEffect(a.logical, bl, data);
    forall b: nat | b < |a.disk| && l.Home(b)
      ensures Updated(a.disk, bl, data)[b] == a.logical[b] == Updated(a.logical, bl, data)[b]
    {
      if b in bl {
        var i :| 0 <= i < |bl| && bl[i] == b;
      }
    }
  }

  /** After a crash at any point of the commit of bl, recovery yields the home
      blocks from before it or, once the header is written, the latest ones. */
  ghost predicate CrashSafe(l: Layout, a: Image, bl: seq<nat>)
    requires l.Fits(a.disk) && |a.logical| == |a.disk| && Loggable(l, |a.disk|, bl)
  {
    forall k: nat :: k <= |CommitWrites(l, a.disk[l.start], bl, Pick(a.logical, bl))| ==>
      && HeadOk(l, CommitCrashed(l, a.disk, bl, Pick(a.logical, bl), k))
      && SameHome(l, Recovered(l, CommitCrashed(l, a.disk, bl, Pick(a.logical, bl), k)),
                     if k <= |bl| then a.disk else a.logical)
  }

  /** What a commit achieves, crash or no crash, from an image with an empty log. */
  lemma CommitMeaning(l: Layout, a: Image, bl: seq<nat>, e: Image)
    requires l.Fits(a.disk) && |a.logical| == |a.disk| && Loggable(l, |a.disk|, bl)
    requires HeadCount(l, a.disk) == 0
    requires forall b: nat :: b < |a.disk| && b !in bl ==> a.disk[b] == a.logical[b]
    requires Written(a, CommitWrites(l, a.disk[l.start], bl, Pick(a.logical, bl)), e)
    ensures HeadCount(l, e.disk) == 0
    ensures SameHome(l, e.disk, a.logical) && SameHome(l, e.logical, a.logical)
    ensures CrashSafe(l, a, bl)
  {
    var data := Pick(a.logical, bl);
    PinsAreUpdates(l, a, bl);
    CommitComplete(l, a.disk, bl, data);
    CommitComplete(l, a.logical, bl, data);
    forall k: nat | k <= |CommitWrites(l, a.disk[l.start], bl, data)|
      ensures HeadOk(l, CommitCrashed(l, a.disk, bl, data, k))
      ensures SameHome(l, Recovered(l, CommitCrashed(l, a.disk, bl, data, k)), if k <= |bl| then a.disk else a.logical)
    {
      CommitCrash(l, a.disk, bl, data, k);
    }
  }

  // ---- how many pinned blocks leave a free buffer

  /** The blocks pinned by the first k buffers. */
  ghost function DirtyBlocks(s: seq<Buf>, k: nat): (r: set<nat>)
    requires k <= |s|
  {
    if k == 0 then {}
    else DirtyBlocks(s, k - 1) + if s[k - 1].dirty then {s[k - 1].blockno} else {}
  }

  lemma {:induction false} DirtyBlocksAre(s: seq<Buf>, k: nat)
    requires k <= |s|
    ensures forall bno: nat :: bno in DirtyBlocks(s, k) <==> exists b: nat :: b < k && s[b].dirty && s[b].blockno == bno
  {
    if k > 0 {
      DirtyBlocksAre(s, k - 1);
    }
  }

  lemma {:induction false} DirtyBlocksCount(s: seq<Buf>, k: nat)
    requires k <= |s|
    requires forall i, j :: 0 <= i < j < k && s[i].dirty && s[j].dirty ==> s[i].blockno != s[j].blockno
    ensures |DirtyBlocks(s, k)| <= k
    ensures |DirtyBlocks(s, k)| == k <==> forall b: nat :: b < k ==> s[b].dirty
  {
    if k > 0 {
      var r, x := DirtyBlocks(s, k - 1), s[k - 1].blockno;
      DirtyBlocksCount(s, k - 1);
      if s[k - 1].dirty {
        assert x !in r by { DirtyBlocksAre(s, k - 1); }
        assert DirtyBlocks(s, k) == r + {x};
        assert |r + {x}| == |r| + 1;
      } else {
        assert DirtyBlocks(s, k) == r;
      }
    }
  }

  ghost function Listed(bl: seq<nat>): (r: set<nat>)
  {
    set b | b in bl
  }

  lemma {:induction false} DistinctCount(bl: seq<nat>)
    requires Distinct(bl)
    ensures |Listed(bl)| == |bl|
  {
    if bl != [] {
      var k := |bl| - 1;
      DistinctCount(bl[..k]);
      assert bl[k] !in Listed(bl[..k]);
      assert Listed(bl) == Listed(bl[..k]) + {bl[k]} by {
        assert bl == bl[..k] + [bl[k]];
      }
    }
  }

  /** When every buffer has been released, bget still finds a buffer for a new
      block exactly when fewer than NBUF blocks are pinned. */
  lemma FreeBufferIff(s: seq<Buf>, disk: Disk, logical: Disk, bl: seq<nat>)
    requires Coherent(s, disk, logical) && Distinct(bl)
    requires forall i :: 0 <= i < |bl| ==> bl[i] < |disk|
    requires forall b: nat :: b < NBUF ==> s[b].refcnt == 0
    requires forall bno: nat :: bno < |disk| ==> (Pinned(s, bno) <==> bno in bl)
    ensures (exists c: nat :: c < NBUF && Recyclable(s[c])) <==> |bl| < NBUF
  {
    DirtyBlocksListed(s, disk, logical, bl);
    DirtyBlocksCount(s, NBUF);
    DistinctCount(bl);
  }

  lemma DirtyBlocksListed(s: seq<Buf>, disk: Disk, logical: Disk, bl: seq<nat>)
    requires Coherent(s, disk, logical)
    requires forall i :: 0 <= i < |bl| ==> bl[i] < |disk|
    requires forall bno: nat :: bno < |disk| ==> (Pinned(s, bno) <==> bno in bl)
    ensures DirtyBlocks(s, NBUF) == Listed(bl)
    ensures forall i, j :: 0 <= i < j < NBUF && s[i].dirty && s[j].dirty ==> s[i].blockno != s[j].blockno
  {
    assert forall b: nat :: b < NBUF && s[b].dirty ==> BufOk(s[b], disk, logical);
    DirtyBlocksAre(s, NBUF);
    assert DirtyBlocks(s, NBUF) == Listed(bl) by {
      forall bno: nat | bno in DirtyBlocks(s, NBUF)
        ensures bno in bl
      {
        var b: nat :| b < NBUF && s[b].dirty && s[b].blockno == bno;
        assert Caches(s[b], bno);
      }
      forall bno: nat | bno in bl
        ensures bno in DirtyBlocks(s, NBUF)
      {
        assert Pinned(s, bno);
      }
    }
  }

  class RedoLog {
    const cache: Cache
    const l: Layout
    const block: array<nat>
    var n: nat
    var outstanding: nat
    var committing: bool

    constructor (c: Cache, layout: Layout)
      ensures cache == c && l == layout && n == 0 && outstanding == 0 && !committing
      ensures block.Length == LOGSIZE && fresh(block)
    {
      cache, l, n, outstanding, committing := c, layout, 0, 0, false;
      block := new nat[LOGSIZE](_ => 0);
    }

    ghost predicate Base()
      reads this, block, cache, cache.bufs
    {
      && cache.Valid()
      && block.Length == LOGSIZE && n <= LOGSIZE
      && l.Fits(cache.disk)
      && Loggable(l, |cache.disk|, block[..n])
    }

    /** The state between any two calls outside commit: exactly the listed
        blocks are pinned, and the log on disk is empty. */
    ghost predicate Valid()
      reads this, block, cache, cache.bufs
    {
      && Base()
      && (committing ==> outstanding == 0)
      && (forall bno: nat :: bno < |cache.disk| ==> (Pinned(cache.bufs[..], bno) <==> bno in block[..n]))
      && HeadCount(l, cache.disk) == 0
    }

    /** Processes outside any operation may be reading other blocks. */
    ghost predicate Calm()
      requires Base()
      reads this, block, cache, cache.bufs
    {
      Quiet(cache.bufs[..], cache.disk, cache.logical, l, block[..n])
    }

    /** Read a log block and then a home block, as both copy loops do. */
    method ReadPair(lb: nat, home: nat, pid: nat) returns (x: nat, y: nat)
      requires cache.Valid() && lb < |cache.disk| && home < |cache.disk| && lb != home && pid != 0
      requires Unheld(cache.bufs[..], lb) && Unheld(cache.bufs[..], home) && !Pinned(cache.bufs[..], lb) && Room(cache.bufs[..], home)
      modifies cache.bufs
      ensures cache.Valid() && x != y && cache.Held(x, pid, lb) && cache.Held(y, pid, home)
      ensures cache.bufs[x].data == cache.logical[lb] && cache.bufs[y].data == cache.logical[home]
      ensures forall c: nat :: c < NBUF && c != x && c != y ==> cache.bufs[c] == old(cache.bufs[c])
      ensures !cache.bufs[x].dirty && !old(cache.bufs[x]).dirty
      ensures Recyclable(old(cache.bufs[x])) ==> cache.bufs[x].refcnt == 1
      ensures Recyclable(old(cache.bufs[y])) ==> cache.bufs[y].refcnt == 1
      ensures cache.bufs[y].dirty == old(cache.bufs[y]).dirty == old(Pinned(cache.bufs[..], home))
      ensures old(Pinned(cache.bufs[..], home)) ==>
                cache.bufs[y] == old(cache.bufs[y]).(holder := pid, refcnt := old(cache.bufs[y]).refcnt + 1)
    {
      hide Linked, Coherent, ByRecency;
      ghost var s := cache.bufs[..];
      PinnedIsDirty(s, cache.disk, cache.logical, lb);
      x := cache.Read(lb, pid);
      PinnedIsDirty(cache.bufs[..], cache.disk, cache.logical, home);
      assert Pinned(cache.bufs[..], home) == Pinned(s, home) by {
        if Pinned(s, home) {
          var b: nat :| b < NBUF && Caches(s[b], home) && s[b].dirty;
          assert Caches(cache.bufs[..][b], home) && cache.bufs[..][b].dirty;
        }
      }
      y := cache.Read(home, pid);
    }

    method ReleasePair(x: nat, y: nat, ghost pid: nat, ghost lb: nat, ghost home: nat)
      requires cache.Valid() && lb < |cache.disk| && home < |cache.disk| && lb != home
      requires cache.Held(x, pid, lb) && cache.Held(y, pid, home) && x != y
      requires cache.bufs[x].dirty || cache.disk[lb] == cache.logical[lb]
      requires cache.bufs[y].dirty || cache.disk[home] == cache.logical[home]
      modifies cache.bufs, cache`order, cache`released, cache`clock
      ensures cache.Valid() && old(cache.bufs[x]).refcnt > 0 && old(cache.bufs[y]).refcnt > 0
      ensures SameButLinks(cache.bufs[x], old(cache.bufs[x]).(holder := 0, refcnt := old(cache.bufs[x]).refcnt - 1))
      ensures SameButLinks(cache.bufs[y], old(cache.bufs[y]).(holder := 0, refcnt := old(cache.bufs[y]).refcnt - 1))
      ensures forall c: nat :: c < NBUF && c != x && c != y ==> SameButLinks(cache.bufs[c], old(cache.bufs[c]))
    {
      hide Linked, Coherent, ByRecency;
      cache.Release(x, pid, lb);
      cache.Release(y, pid, home);
    }

    /** The body of the loop in write_log: copy cached block i into the log. */
    method CopyToLog(i: nat, pid: nat)
      requires Base() && i < n && pid != 0
      requires Calm() && !Pinned(cache.bufs[..], l.start + 1 + i)
      requires Pinned(cache.bufs[..], block[i]) && Room(cache.bufs[..], block[i])
      modifies cache, cache.bufs
      ensures Base() && Calm()
      ensures l.start + 1 + i < |old(cache.disk)| && block[i] < |old(cache.disk)|
      ensures var w := Write(l.start + 1 + i, old(cache.logical)[block[i]]);
              && cache.disk == old(cache.disk)[w.bno := w.data]
              && cache.logical == old(cache.logical)[w.bno := w.data]
              && cache.writes == old(cache.writes) + [w]
      ensures forall bno: nat :: Pinned(cache.bufs[..], bno) <==> old(Pinned(cache.bufs[..], bno))
      ensures forall c: nat :: c < NBUF && Recyclable(old(cache.bufs[c])) ==> Recyclable(cache.bufs[c])
    {
      hide Linked, Coherent, ByRecency, Quiet, Room, Distinct;
      ghost var s, d0, l0, bl := cache.bufs[..], cache.disk, cache.logical, block[..n];
      assert bl[i] in bl;
      QuietUnheld(s, d0, l0, l, bl, l.start + 1 + i);
      QuietUnheld(s, d0, l0, l, bl, block[i]);
      var to, from := ReadPair(l.start + i + 1, block[i], pid);
      cache.Store(to, pid, l.start + i + 1, cache.bufs[from].data);
      cache.Write(to, pid, l.start + i + 1);
      ReleasePair(from, to, pid, block[i], l.start + i + 1);
      TouchedKeeps(s, cache.bufs[..], to);
      QuietKept(s, cache.bufs[..], d0, l0, l, bl, Write(l.start + 1 + i, l0[block[i]]));
    }

    /** The body of the loop in install_trans: copy log entry i to its home. */
    method CopyHome(i: nat, pid: nat)
      requires Base() && i < n && pid != 0
      requires Calm() && !Pinned(cache.bufs[..], l.start + 1 + i)
      requires Room(cache.bufs[..], block[i])
      modifies cache, cache.bufs
      ensures Base() && Calm()
      ensures l.start + 1 + i < |old(cache.disk)| && block[i] < |old(cache.disk)|
      ensures var w := Write(block[i], old(cache.logical)[l.start + 1 + i]);
              && cache.disk == old(cache.disk)[w.bno := w.data]
              && cache.logical == old(cache.logical)[w.bno := w.data]
              && cache.writes == old(cache.writes) + [w]
      ensures forall bno: nat :: Pinned(cache.bufs[..], bno) <==> old(Pinned(cache.bufs[..], bno)) && bno != block[i]
      ensures forall c: nat :: c < NBUF && Recyclable(old(cache.bufs[c])) ==> Recyclable(cache.bufs[c])
    {
      hide Linked, Coherent, ByRecency, Quiet, Room, Distinct;
      ghost var s, d0, l0, bl := cache.bufs[..], cache.disk, cache.logical, block[..n];
      assert bl[i] in bl;
      QuietUnheld(s, d0, l0, l, bl, l.start + 1 + i);
      QuietUnheld(s, d0, l0, l, bl, block[i]);
      UnpinnedOnDisk(s, d0, l0, l, bl, l.start + 1 + i);
      var lbuf, dbuf := ReadPair(l.start + i + 1, block[i], pid);
      cache.Store(dbuf, pid, block[i], cache.bufs[lbuf].data);
      cache.Write(dbuf, pid, block[i]);
      ReleasePair(lbuf, dbuf, pid, l.start + i + 1, block[i]);
      InstalledKeeps(s, cache.bufs[..], d0, l0, lbuf, dbuf, block[i]);
      QuietKept(s, cache.bufs[..], d0, l0, l, bl, Write(block[i], l0[l.start + 1 + i]));
    }

    ghost function Now(): (i: Image)
      reads cache
    {
      Image(cache.disk, cache.logical, cache.writes)
    }

    /** No block of the log area is pinned. */
    ghost predicate LogUnpinned()
      reads this, cache, cache.bufs
    {
      && cache.bufs.Length == NBUF + 1
      && forall bno: nat :: l.start <= bno < l.start + l.size ==> !Pinned(cache.bufs[..], bno)
    }

    /** The latest contents of the listed blocks. */
    ghost function Latest(): (data: seq<Block>)
      requires Base()
      reads this, block, cache, cache.bufs
      ensures |data| == n
    {
      Pick(cache.logical, block[..n])
    }

    /** The latest contents of the log entries. */
    ghost function Entries(): (data: seq<Block>)
      requires Base()
      reads this, block, cache, cache.bufs
      ensures |data| == n
    {
      cache.logical[l.start + 1..l.start + 1 + n]
    }

    /** write_log: every listed block, as the cache has it, into the log. */
    method WriteLog(pid: nat)
      requires Base() && pid != 0 && Calm() && LogUnpinned()
      requires forall i :: 0 <= i < n ==> Pinned(cache.bufs[..], block[i]) && Room(cache.bufs[..], block[i])
      modifies cache, cache.bufs
      ensures Base() && Calm()
      ensures Written(old(Now()), LogWrites(l, old(Latest())), Now())
      ensures forall bno: nat :: Pinned(cache.bufs[..], bno) <==> old(Pinned(cache.bufs[..], bno))
      ensures forall c: nat :: c < NBUF && Recyclable(old(cache.bufs[c])) ==> Recyclable(cache.bufs[c])
    {
      hide Linked, Coherent, ByRecency, Written, Distinct, Quiet;
      ghost var was, data, ws := Now(), Latest(), LogWrites(l, Latest());
      WrittenNothing(was);
      assert ws[..0] == [];
      for tail := 0 to n
        invariant Base() && Calm()
        invariant forall bno: nat :: Pinned(cache.bufs[..], bno) <==> old(Pinned(cache.bufs[..], bno))
        invariant forall c: nat :: c < NBUF && Recyclable(old(cache.bufs[c])) ==> Recyclable(cache.bufs[c])
        invariant Written(was, ws[..tail], Now()) && |cache.disk| == |was.disk|
        invariant Latest() == data
      {
        RoomKept(old(cache.bufs[..]), cache.bufs[..], block[tail]);
        assert cache.logical[block[..n][tail]] == data[tail];
        WrittenOneMore(was, ws, tail, Now(), ws[tail]);
        CopyToLog(tail, pid);
      }
      assert ws[..n] == ws;
    }

    /** install_trans: every log entry to its home block. */
    method InstallTrans(pid: nat)
      requires Base() && pid != 0 && Calm() && LogUnpinned()
      requires forall i :: 0 <= i < n ==> Room(cache.bufs[..], block[i])
      modifies cache, cache.bufs
      ensures Base() && Calm()
      ensures Written(old(Now()), InstallWrites(block[..n], old(Entries())), Now())
      ensures forall bno: nat :: Pinned(cache.bufs[..], bno) <==> old(Pinned(cache.bufs[..], bno)) && bno !in block[..n]
      ensures forall c: nat :: c < NBUF && Recyclable(old(cache.bufs[c])) ==> Recyclable(cache.bufs[c])
    {
      hide Linked, Coherent, ByRecency, Written, Quiet, Distinct, Room;
      ghost var was, data, ws := Now(), Entries(), InstallWrites(block[..n], Entries());
      WrittenNothing(was);
      assert ws[..0] == [];
      for tail := 0 to n
        invariant Base() && Calm()
        invariant forall bno: nat :: Pinned(cache.bufs[..], bno) <==> old(Pinned(cache.bufs[..], bno)) && bno !in block[..tail]
        invariant forall c: nat :: c < NBUF && Recyclable(old(cache.bufs[c])) ==> Recyclable(cache.bufs[c])
        invariant Written(was, ws[..tail], Now()) && |cache.disk| == |was.disk|
        invariant Entries() == data
      {
        NotBefore(block[..n], tail);
        assert block[..n][..tail] == block[..tail] && block[..tail + 1] == block[..tail] + [block[tail]];
        RoomKept(old(cache.bufs[..]), cache.bufs[..], block[tail]);
        assert data[tail] == cache.logical[l.start + 1 + tail];
        WrittenOneMore(was, ws, tail, Now(), ws[tail]);
        CopyHome(tail, pid);
      }
      assert ws[..n] == ws;
    }

    /** The header block with the in-memory list stored over b. */
    method FormatHead(b: Block) returns (h: Block)
      requires block.Length == LOGSIZE && n <= LOGSIZE
      requires FitWords(block[..n])
      ensures h == PutHead(b, block[..n])
    {
      h := SetWord(b, 0, n);
      for i := 0 to n
        invariant h == PutBlocks(SetWord(b, 0, n), block[..i])
      {
        h := SetWord(h, 1 + i, block[i]);
        assert block[..i + 1][..i] == block[..i];
      }
    }

    /** write_head: one write of the header block. */
    method WriteHead(pid: nat)
      requires Base() && pid != 0 && Calm() && LogUnpinned()
      requires exists c: nat :: c < NBUF && Recyclable(cache.bufs[c])
      modifies cache, cache.bufs
      ensures Base() && Calm()
      ensures Written(old(Now()), [Write(l.start, PutHead(old(cache.logical)[l.start], block[..n]))], Now())
      ensures forall bno: nat :: Pinned(cache.bufs[..], bno) <==> old(Pinned(cache.bufs[..], bno))
      ensures forall c: nat :: c < NBUF && Recyclable(old(cache.bufs[c])) ==> Recyclable(cache.bufs[c])
    {
      hide Linked, Coherent, ByRecency, Written, Distinct, PutHead, Quiet;
      ghost var s, was, bl := cache.bufs[..], Now(), block[..n];
      PinnedIsDirty(s, cache.disk, cache.logical, l.start);
      QuietUnheld(s, was.disk, was.logical, l, bl, l.start);
      var b := cache.Read(l.start, pid);
      var h := FormatHead(cache.bufs[b].data);
      ghost var w := Write(l.start, h);
      WrittenNothing(was);
      assert [w][..0] == [] && [w][..1] == [w];
      WrittenOneMore(was, [w], 0, was, w);
      cache.Store(b, pid, l.start, h);
      cache.Write(b, pid, l.start);
      cache.Release(b, pid, l.start);
      TouchedKeeps(s, cache.bufs[..], b);
      QuietKept(s, cache.bufs[..], was.disk, was.logical, l, bl, w);
    }

    /** read_head: the list that the header block on disk holds. */
    method ReadHead(pid: nat)
      requires cache.Valid() && block.Length == LOGSIZE && pid != 0
      requires HeadOk(l, cache.disk) && cache.logical == cache.disk
      requires forall c :: 0 <= c < NBUF ==> Recyclable(cache.bufs[c]) && cache.bufs[c].holder == 0
      modifies this`n, block, cache, cache.bufs
      ensures Now() == old(Now())
      ensures Base() && block[..n] == HeadBlocks(l, cache.disk)
      ensures forall c :: 0 <= c < NBUF ==> Recyclable(cache.bufs[c]) && cache.bufs[c].holder == 0
    {
      hide Linked, Coherent, ByRecency, Distinct;
      assert Recyclable(cache.bufs[0]);
      var b := cache.Read(l.start, pid);
      var h := cache.bufs[b].data;
      n := Word(h, 0);
      for i := 0 to n
        invariant block[..i] == HeadBlocks(l, cache.disk)[..i]
        modifies block
      {
        block[i] := Word(h, 1 + i);
        assert block[..i + 1] == block[..i] + [block[i]];
      }
      assert block[..n] == HeadBlocks(l, cache.disk)[..n] == HeadBlocks(l, cache.disk);
      cache.Release(b, pid, l.start);
    }

    /** recover_from_log on a freshly started machine. Its writes are exactly
        those that the crash lemmas speak about. */
    method Recover(pid: nat)
      requires cache.Valid() && block.Length == LOGSIZE && pid != 0
      requires HeadOk(l, cache.disk) && cache.logical == cache.disk
      requires forall c :: 0 <= c < NBUF ==> Recyclable(cache.bufs[c]) && cache.bufs[c].holder == 0
      requires outstanding == 0 && !committing
      modifies this`n, block, cache, cache.bufs
      ensures Valid() && n == 0
      ensures cache.disk == Recovered(l, old(cache.disk)) && cache.logical == cache.disk
      ensures cache.writes == old(cache.writes) + RecoverWrites(l, old(cache.disk))
    {
      hide Linked, Coherent, ByRecency, Written, Apply, PutHead;
      ghost var was := Now();
      ReadHead(pid);
      assert Recyclable(cache.bufs[0]) && Recyclable(cache.bufs[1]);
      InstallTrans(pid);
      ghost var mid := Now();
      n := 0;
      assert block[..0] == [];
      assert Recyclable(cache.bufs[0]);
      WriteHead(pid);
      RecoverySteps(l, was, mid, Now());
    }

    /** The first half of commit: the log entries, then the header, which is
        the commit point. */
    method WriteAhead(pid: nat)
      requires Base() && pid != 0 && Calm() && LogUnpinned()
      requires forall i :: 0 <= i < n ==> Pinned(cache.bufs[..], block[i])
      requires exists c: nat :: c < NBUF && Recyclable(cache.bufs[c])
      modifies cache, cache.bufs
      ensures Base() && Calm() && Entries() == old(Latest())
      ensures var h := PutHead(old(cache.logical)[l.start], block[..n]);
              && Written(old(Now()), LogWrites(l, old(Latest())) + [Write(l.start, h)], Now())
              && cache.logical[l.start] == h
      ensures forall bno: nat :: Pinned(cache.bufs[..], bno) <==> old(Pinned(cache.bufs[..], bno))
      ensures exists c: nat :: c < NBUF && Recyclable(cache.bufs[c])
    {
      hide Linked, Coherent, ByRecency, Written, Apply, PutHead, Distinct, Quiet, LogWrites;
      ghost var a, data := Now(), Latest();
      WriteLog(pid);
      ghost var b := Now();
      WriteHead(pid);
      ghost var h := Write(l.start, PutHead(b.logical[l.start], block[..n]));
      EntriesAre(l, a, data, b, h, Now());
      WrittenTwice(a, LogWrites(l, data), b, [h], Now());
    }

    /** The second half of commit: the home blocks, then an empty header. */
    method InstallAndClear(pid: nat)
      requires Base() && pid != 0 && Calm() && LogUnpinned()
      requires forall i :: 0 <= i < n ==> Room(cache.bufs[..], block[i])
      requires exists c: nat :: c < NBUF && Recyclable(cache.bufs[c])
      modifies this`n, cache, cache.bufs
      ensures Base() && Calm() && n == 0
      ensures Written(old(Now()), InstallWrites(old(block[..n]), old(Entries()))
                                  + [Write(l.start, PutHead(old(cache.logical)[l.start], []))], Now())
      ensures forall bno: nat :: Pinned(cache.bufs[..], bno) <==> old(Pinned(cache.bufs[..], bno)) && bno !in old(block[..n])
    {
      assert Distinct([]);
      hide Linked, Coherent, ByRecency, Written, Apply, PutHead, Distinct;
      ghost var c, bl, data := Now(), block[..n], Entries();
      InstallTrans(pid);
      ghost var d := Now();
      InstallKeepsHead(l, c, bl, data, d);
      n := 0;
      assert block[..0] == [];
      WriteHead(pid);
      WrittenTwice(c, InstallWrites(bl, data), d, [Write(l.start, PutHead(c.logical[l.start], []))], Now());
    }

    /** commit for a nonempty list. */
    method WriteTransaction(pid: nat)
      requires Base() && pid != 0 && 0 < n && Calm() && LogUnpinned()
      requires forall i :: 0 <= i < n ==> Pinned(cache.bufs[..], block[i])
      requires exists c: nat :: c < NBUF && Recyclable(cache.bufs[c])
      modifies this`n, cache, cache.bufs
      ensures Base() && Calm() && n == 0
      ensures Written(old(Now()), CommitWrites(l, old(cache.logical)[l.start], old(block[..n]), old(Latest())), Now())
      ensures forall bno: nat :: Pinned(cache.bufs[..], bno) <==> old(Pinned(cache.bufs[..], bno)) && bno !in old(block[..n])
    {
      hide Linked, Coherent, ByRecency, Written, Apply, PutHead, Distinct;
      ghost var a, bl, data := Now(), block[..n], Latest();
      WriteAhead(pid);
      ghost var c := Now();
      InstallAndClear(pid);
      CommitHalves(l, a, bl, data, c, Now());
    }

    /** commit, run while no operation is outstanding and processes are at most
        reading other blocks: its writes in order, and what any crash among them
        leaves. */
    method Commit(pid: nat)
      requires Valid() && pid != 0 && outstanding == 0 && Calm()
      requires exists c: nat :: c < NBUF && Recyclable(cache.bufs[c])
      modifies this`n, cache, cache.bufs
      ensures Valid() && n == 0 && Calm()
      ensures Written(old(Now()), CommitWrites(l, old(cache.disk)[l.start], old(block[..n]), old(Latest())), Now())
      ensures SameHome(l, cache.disk, old(cache.logical)) && SameHome(l, cache.logical, old(cache.logical))
      ensures CrashSafe(l, old(Now()), old(block[..n]))
    {
      hide Linked, Coherent, ByRecency, Written, Apply, PutHead, Distinct, CrashSafe;
      ghost var a, bl := Now(), block[..n];
      PinnedOnly(cache.bufs[..], a.disk, a.logical, l, bl);
      if n > 0 {
        WriteTransaction(pid);
      } else {
        WrittenNothing(a);
      }
      CommitMeaning(l, a, bl, Now());
    }

    /** One pass of begin_op's loop under the log lock: it sleeps (and the
        caller tries again later) or reserves MAXOPBLOCKS and proceeds. */
    method BeginOp() returns (started: bool)
      requires Valid()
      modifies this`outstanding
      ensures Valid()
      ensures started <==> !committing && n + (old(outstanding) + 1) * MAXOPBLOCKS <= LOGSIZE
      ensures outstanding == old(outstanding) + if started then 1 else 0
    {
      if committing {
        return false;
      } else if n + (outstanding + 1) * MAXOPBLOCKS > LOGSIZE {
        return false;
      } else {
        outstanding := outstanding + 1;
        return true;
      }
    }

    /** The search loop of log_write: an index with the block, or n. */
    method Absorb(bno: nat) returns (i: nat)
      requires block.Length == LOGSIZE && n <= LOGSIZE
      ensures i <= n && (i < n ==> block[i] == bno)
      ensures i == n ==> bno !in block[..n]
    {
      i := 0;
      while i < n
        invariant i <= n && bno !in block[..i]
      {
        if block[i] == bno {
          break;
        }
        i := i + 1;
      }
    }

    /** The tests of log_write, which it makes before it takes the log's lock. */
    method Tests() returns (passed: bool)
      ensures passed <==> n < LOGSIZE && n < l.size - 1 && outstanding >= 1
    {
      passed := !(n >= LOGSIZE || n >= l.size - 1) && !(outstanding < 1);
    }

    /** The rest of log_write, under the lock, whatever has happened since the tests:
        list the block of a held buffer once and pin the buffer. It must still find
        a place in the array; the log stays in order exactly when the block is listed
        already or there is still room in the log area. */
    method List(b: nat, ghost pid: nat, bno: nat)
      requires Valid() && cache.Held(b, pid, bno)
      requires bno < |cache.disk| && bno < UINT_LIMIT && l.Home(bno)
      requires n < LOGSIZE || bno in block[..n]
      modifies this`n, block, cache.bufs
      ensures Valid() <==> bno in old(block[..n]) || old(n) < l.size - 1
      ensures cache.Valid() && cache.Held(b, pid, bno) && n <= block.Length
      ensures block[..n] == if bno in old(block[..n]) then old(block[..n]) else old(block[..n]) + [bno]
      ensures cache.bufs[..] == old(cache.bufs[..])[b := old(cache.bufs[b]).(dirty := true)]
    {
      hide Linked, Coherent, ByRecency;
      var i := Absorb(bno);
      ghost var bl, s := block[..n], cache.bufs[..];
      block[i] := bno;
      if i == n {
        n := n + 1;
        assert block[..n] == bl + [bno];
      } else {
        assert block[..n] == bl;
      }
      cache.Pin(b, pid, bno);
      PinsOneMore(s, cache.bufs[..], b, bno);
    }

    /** log_write with nothing in between. */
    method LogWrite(b: nat, ghost pid: nat, bno: nat) returns (panicked: bool)
      requires Valid() && cache.Held(b, pid, bno)
      requires bno < |cache.disk| && bno < UINT_LIMIT && l.Home(bno)
      modifies this`n, block, cache.bufs
      ensures panicked <==> old(n) >= LOGSIZE || old(n) >= l.size - 1 || outstanding < 1
      ensures Valid() && cache.Held(b, pid, bno)
      ensures block[..n] == if panicked || bno in old(block[..n]) then old(block[..n]) else old(block[..n]) + [bno]
      ensures cache.bufs[..] == if panicked then old(cache.bufs[..]) else old(cache.bufs[..])[b := old(cache.bufs[b]).(dirty := true)]
    {
      var passed := Tests();
      if passed {
        List(b, pid, bno);
      }
      panicked := !passed;
    }

    /** end_op: the last operation to end commits. The panic test can not
        succeed, because an operation is outstanding only when no commit runs. */
    method EndOp(pid: nat)
      requires Valid() && pid != 0 && outstanding >= 1
      requires outstanding == 1 ==> Calm() && exists c: nat :: c < NBUF && Recyclable(cache.bufs[c])
      modifies this`outstanding, this`committing, this`n, cache, cache.bufs
      ensures Valid() && outstanding == old(outstanding) - 1 && !committing
      ensures old(outstanding) > 1 ==> n == old(n) && Now() == old(Now())
      ensures old(outstanding) == 1 ==>
                && n == 0 && SameHome(l, cache.disk, old(cache.logical)) && SameHome(l, cache.logical, old(cache.logical))
                && Written(old(Now()), CommitWrites(l, old(cache.disk)[l.start], old(block[..n]), old(Latest())), Now())
                && CrashSafe(l, old(Now()), old(block[..n]))
    {
      hide Linked, Coherent, ByRecency, Written, Apply, PutHead, Distinct, CrashSafe;
      outstanding := outstanding - 1;
      assert !committing;
      if outstanding == 0 {
        committing := true;
        Commit(pid);
        committing := false;
      }
    }
  }

  lemma PinsOneMore(s: seq<Buf>, t: seq<Buf>, b: nat, bno: nat)
    requires |s| == NBUF + 1 && b < NBUF && Caches(s[b], bno) && t == s[b := s[b].(dirty := true)]
    ensures forall k: nat :: Pinned(t, k) <==> Pinned(s, k) || k == bno
  {
    forall k: nat
      ensures Pinned(t, k) <==> Pinned(s, k) || k == bno
    {
      if Pinned(s, k) {
        var c: nat :| c < NBUF && Caches(s[c], k) && s[c].dirty;
        assert Caches(t[c], k) && t[c].dirty;
      }
      if k == bno {
        assert Caches(t[b], k) && t[b].dirty;
      }
    }
  }
}
