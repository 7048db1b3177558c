/** The buffer cache: NBUF buffers on a circular doubly linked list, most
    recently released first. Buffers are named by their index in the array; the
    list head is the extra entry at index HEAD. Each method is one section that
    the program runs under the cache lock or while holding the buffer's sleep
    lock, so any interleaving of processes is a sequence of these calls. */
module BufferCache {
  import opened Blocks
  import opened DiskLog

  const NBUF := MAXOPBLOCKS * 3
  const HEAD := NBUF
  const ROOTDEV := 1

  /** A buffer. holder is the pid that holds the sleep lock, 0 when it is free. */
  datatype Buf = Buf(dev: nat, blockno: nat, valid: bool, dirty: bool, refcnt: nat,
                     holder: nat, data: Block, prev: nat, next: nat)

  /** The i-th node of the ring, counting the list head as node 0 and NBUF + 1. */
  ghost function Node(order: seq<nat>, i: nat): (b: nat)
    requires |order| == NBUF && i <= NBUF + 1
  {
    if i == 0 || i == NBUF + 1 then HEAD else order[i - 1]
  }

  /** order lists every buffer once. */
  ghost predicate Permutation(order: seq<nat>) {
    && |order| == NBUF
    && (forall i :: 0 <= i < NBUF ==> order[i] < NBUF)
    && (forall i, j :: 0 <= i < j < NBUF ==> order[i] != order[j])
    && (forall b :: 0 <= b < NBUF ==> b in order)
  }

  /** Node i and its successor point at each other. */
  ghost predicate LinkAt(s: seq<Buf>, order: seq<nat>, i: nat)
    requires |s| == NBUF + 1 && Permutation(order) && i <= NBUF
  {
    && s[Node(order, i)].next == Node(order, i + 1)
    && s[Node(order, i + 1)].prev == Node(order, i)
  }

  /** The next and prev fields link the ring in the given order. */
  ghost predicate Linked(s: seq<Buf>, order: seq<nat>) {
    && |s| == NBUF + 1
    && Permutation(order)
    && forall i :: 0 <= i <= NBUF ==> LinkAt(s, order, i)
  }

  predicate Caches(u: Buf, bno: nat) {
    u.dev == ROOTDEV && u.blockno == bno
  }

  predicate Recyclable(u: Buf) {
    u.refcnt == 0 && !u.dirty
  }

  ghost predicate Cached(s: seq<Buf>, bno: nat)
    requires |s| == NBUF + 1
  {
    exists b: nat :: b < NBUF && Caches(s[b], bno)
  }

  ghost predicate SameButLinks(u: Buf, v: Buf) {
    u == v.(prev := u.prev, next := u.next)
  }

  /** Per-buffer facts; logical holds the latest contents of every block. */
  ghost predicate BufOk(u: Buf, disk: Disk, logical: Disk)
    requires |disk| == |logical|
  {
    && (u.dev == 0 || u.dev == ROOTDEV)
    && (u.dev == ROOTDEV ==> u.blockno < |disk|)
    && (u.dev == 0 ==> !u.valid && !u.dirty && u.refcnt == 0)
    && (u.dirty ==> u.valid)
    && (u.holder != 0 ==> u.refcnt > 0)
    && (u.valid ==> u.data == logical[u.blockno])
    && (u.valid && !u.dirty && u.holder == 0 ==> u.data == disk[u.blockno])
  }

  ghost predicate NoDuplicates(s: seq<Buf>)
    requires |s| == NBUF + 1
  {
    forall i, j :: 0 <= i < j < NBUF && s[i].dev == ROOTDEV && s[j].dev == ROOTDEV ==> s[i].blockno != s[j].blockno
  }

  /** A block that no valid buffer holds has its latest contents on disk. */
  ghost predicate UncachedOnDisk(s: seq<Buf>, disk: Disk, logical: Disk)
    requires |s| == NBUF + 1 && |disk| == |logical|
  {
    forall bno: nat :: bno < |disk| && disk[bno] != logical[bno] ==>
      exists b: nat :: b < NBUF && Caches(s[b], bno) && s[b].valid
  }

  ghost predicate Coherent(s: seq<Buf>, disk: Disk, logical: Disk) {
    && |s| == NBUF + 1 && |disk| == |logical|
    && (forall b :: 0 <= b < NBUF ==> BufOk(s[b], disk, logical))
    && NoDuplicates(s)
    && UncachedOnDisk(s, disk, logical)
  }

  /** Earlier in the list means released later. */
  ghost predicate ByRecency(order: seq<nat>, released: seq<nat>, clock: nat) {
    && |order| == NBUF && |released| == NBUF
    && (forall i :: 0 <= i < NBUF ==> order[i] < NBUF)
    && (forall b :: 0 <= b < NBUF ==> released[b] < clock)
    && (forall i, j :: 0 <= i < j < NBUF ==> released[order[i]] > released[order[j]])
  }

  /** The position of a buffer in the list. */
  ghost function IndexOf(order: seq<nat>, b: nat): (i: nat)
    requires b in order
    ensures i < |order| && order[i] == b
  {
    var i :| 0 <= i < |order| && order[i] == b;
    i
  }

  /** The list with b moved to the front. */
  ghost function MoveToFront(order: seq<nat>, b: nat): (r: seq<nat>)
    requires b in order
    ensures |r| == |order|
  {
    var i := IndexOf(order, b);
    [b] + order[..i] + order[i + 1..]
  }

  /** Walking the whole list visits every buffer. */
  lemma WalkedAll(s: seq<Buf>, order: seq<nat>, bno: nat)
    requires |s| == NBUF + 1 && Permutation(order)
    ensures (forall j :: 0 <= j < NBUF ==> !Caches(s[order[j]], bno)) ==> !Cached(s, bno)
    ensures (forall j :: 0 <= j < NBUF ==> !Recyclable(s[order[j]])) ==> (forall b: nat :: b < NBUF ==> !Recyclable(s[b]))
  {
    forall b: nat | b < NBUF
      ensures exists j :: 0 <= j < NBUF && s[order[j]] == s[b]
    {
      assert s[order[IndexOf(order, b)]] == s[b];
    }
  }

  lemma MoveToFrontPermutes(order: seq<nat>, b: nat)
    requires Permutation(order) && b < NBUF
    ensures Permutation(MoveToFront(order, b))
  {
    var p := IndexOf(order, b);
    var r := MoveToFront(order, b);
    forall c | 0 <= c < NBUF
      ensures c in r
    {
      var k := IndexOf(order, c);
      if k < p {
        assert r[k + 1] == c;
      } else if k > p {
        assert r[k] == c;
      }
    }
  }

  lemma NodesDiffer(order: seq<nat>, i: nat, j: nat)
    requires Permutation(order) && i < j <= NBUF
    ensures Node(order, i) != Node(order, j)
  {
  }

  /** t is s with b unlinked and linked again right after the list head. */
  ghost predicate Relinked(s: seq<Buf>, t: seq<Buf>, b: nat)
    requires |s| == |t| == NBUF + 1 && b < NBUF
  {
    var q, n, f := s[b].prev, s[b].next, s[HEAD].next;
    && (forall x: nat {:trigger t[x].next} :: x <= NBUF ==>
         t[x].next == if x == HEAD then b
                      else if x == b then (if q == HEAD then n else f)
                      else if x == q then n else s[x].next)
    && (forall x: nat {:trigger t[x].prev} :: x <= NBUF ==>
         t[x].prev == if x == b then HEAD
                      else if q != HEAD && x == f then b
                      else if q != HEAD && x == n then q else s[x].prev)
  }

  lemma Neighbours(s: seq<Buf>, order: seq<nat>, p: nat)
    requires Linked(s, order) && p < NBUF
    ensures s[order[p]].prev == Node(order, p) && s[order[p]].next == Node(order, p + 2)
    ensures s[HEAD].next == order[0] && s[s[order[p]].next].prev == order[p]
  {
    assert LinkAt(s, order, p) && LinkAt(s, order, p + 1) && LinkAt(s, order, 0);
  }

  lemma RelinkBefore(s: seq<Buf>, t: seq<Buf>, order: seq<nat>, p: nat, i: nat)
    requires Linked(s, order) && |t| == |s| && p < NBUF && Relinked(s, t, order[p])
    requires 0 < i < p
    ensures t[Node(order, i)].next == Node(order, i + 1)
    ensures t[Node(order, i + 1)].prev == Node(order, i)
  {
    assert LinkAt(s, order, i);
    Neighbours(s, order, p);
    NodesDiffer(order, i, p);
    NodesDiffer(order, 1, i + 1);
  }

  lemma RelinkAfter(s: seq<Buf>, t: seq<Buf>, order: seq<nat>, p: nat, i: nat)
    requires Linked(s, order) && |t| == |s| && 0 < p < NBUF && Relinked(s, t, order[p])
    requires p + 1 < i <= NBUF
    ensures t[Node(order, i)].next == Node(order, i + 1)
    ensures t[Node(order, i + 1)].prev == Node(order, i)
  {
    assert LinkAt(s, order, i);
    Neighbours(s, order, p);
    NodesDiffer(order, p, i);
    if i < NBUF {
      NodesDiffer(order, p + 2, i + 1);
    }
  }

  lemma MovedNode(order: seq<nat>, b: nat, i: nat)
    requires Permutation(order) && b < NBUF && i <= NBUF + 1
    ensures var p := IndexOf(order, b);
            Node(MoveToFront(order, b), i) == if i == 1 then b
                                              else if 2 <= i <= p + 1 then Node(order, i - 1)
                                              else Node(order, i)
  {
  }

  lemma RelinkAt(s: seq<Buf>, t: seq<Buf>, order: seq<nat>, b: nat, i: nat)
    requires Linked(s, order) && b < NBUF && |t| == |s| && i <= NBUF
    requires Relinked(s, t, b)
    ensures var r := MoveToFront(order, b);
            t[Node(r, i)].next == Node(r, i + 1) && t[Node(r, i + 1)].prev == Node(r, i)
  {
    var p := IndexOf(order, b);
    Neighbours(s, order, p);
    MovedNode(order, b, i);
    MovedNode(order, b, i + 1);
    if p == 0 {
      assert LinkAt(s, order, i);
    } else if i <= 1 {
    } else if i <= p {
      RelinkBefore(s, t, order, p, i - 1);
    } else if i == p + 1 {
      NodesDiffer(order, p, p + 1);
    } else {
      RelinkAfter(s, t, order, p, i);
    }
  }

  /** The pointer updates of brelse turn the ring for order into the ring for
      MoveToFront(order, b). */
  lemma RelinkMoves(s: seq<Buf>, t: seq<Buf>, order: seq<nat>, b: nat)
    requires Linked(s, order) && b < NBUF && |t| == |s|
    requires Relinked(s, t, b)
    ensures Linked(t, MoveToFront(order, b))
  {
    MoveToFrontPermutes(order, b);
    var r := MoveToFront(order, b);
    forall i | 0 <= i <= NBUF
      ensures LinkAt(t, r, i)
    {
      RelinkAt(s, t, order, b, i);
    }
  }

  // ---- coherence under single-buffer updates

  lemma SameBlockUpdate(s: seq<Buf>, disk: Disk, logical: Disk, b: nat, u: Buf)
    requires Coherent(s, disk, logical) && b < NBUF
    requires u.dev == s[b].dev && u.blockno == s[b].blockno && (s[b].valid ==> u.valid)
    requires BufOk(u, disk, logical)
    ensures Coherent(s[b := u], disk, logical)
  {
    var t := s[b := u];
    forall bno: nat | bno < |disk| && disk[bno] != logical[bno]
      ensures exists c: nat :: c < NBUF && Caches(t[c], bno) && t[c].valid
    {
      var c: nat :| c < NBUF && Caches(s[c], bno) && s[c].valid;
      assert Caches(t[c], bno) && t[c].valid;
    }
  }

  /** Giving a recyclable buffer to another block loses no contents. */
  lemma RecycleKeeps(s: seq<Buf>, disk: Disk, logical: Disk, b: nat, u: Buf)
    requires Coherent(s, disk, logical) && b < NBUF && Recyclable(s[b])
    requires u.dev == ROOTDEV && u.blockno < |disk| && !u.valid && !u.dirty && u.holder == 0
    requires !Cached(s, u.blockno)
    ensures Coherent(s[b := u], disk, logical)
  {
    var t := s[b := u];
    forall bno: nat | bno < |disk| && disk[bno] != logical[bno]
      ensures exists c: nat :: c < NBUF && Caches(t[c], bno) && t[c].valid
    {
      var c: nat :| c < NBUF && Caches(s[c], bno) && s[c].valid;
      assert c != b by { assert BufOk(s[b], disk, logical); }
      assert Caches(t[c], bno) && t[c].valid;
    }
  }

  /** Filling an invalid buffer from disk gives it the latest contents. */
  lemma FillIsLatest(s: seq<Buf>, disk: Disk, logical: Disk, b: nat)
    requires Coherent(s, disk, logical) && b < NBUF && s[b].dev == ROOTDEV && !s[b].valid
    ensures s[b].blockno < |disk| && disk[s[b].blockno] == logical[s[b].blockno]
  {
    assert BufOk(s[b], disk, logical);
  }

  /** Changing a held buffer's data changes the latest contents of its block only. */
  lemma StoreKeeps(s: seq<Buf>, disk: Disk, logical: Disk, b: nat, data: Block)
    requires Coherent(s, disk, logical) && b < NBUF
    requires s[b].dev == ROOTDEV && s[b].valid && s[b].holder != 0
    ensures s[b].blockno < |logical|
    ensures Coherent(s[b := s[b].(data := data)], disk, logical[s[b].blockno := data])
  {
    assert BufOk(s[b], disk, logical);
    var bno := s[b].blockno;
    var t, log2 := s[b := s[b].(data := data)], logical[bno := data];
    forall c | 0 <= c < NBUF
      ensures BufOk(t[c], disk, log2)
    {
      assert BufOk(s[c], disk, logical);
    }
    forall k: nat | k < |disk| && disk[k] != log2[k]
      ensures exists c: nat :: c < NBUF && Caches(t[c], k) && t[c].valid
    {
      if k == bno {
        assert Caches(t[b], k) && t[b].valid;
      } else {
        var c: nat :| c < NBUF && Caches(s[c], k) && s[c].valid;
        assert Caches(t[c], k) && t[c].valid;
      }
    }
  }

  /** Writing a valid buffer out makes disk and latest contents agree there. */
  lemma WriteOutKeeps(s: seq<Buf>, disk: Disk, logical: Disk, b: nat, u: Buf)
    requires Coherent(s, disk, logical) && b < NBUF && s[b].dev == ROOTDEV && s[b].valid
    requires u == s[b].(dirty := false)
    ensures s[b].blockno < |disk|
    ensures Coherent(s[b := u], disk[s[b].blockno := s[b].data], logical)
  {
    assert BufOk(s[b], disk, logical);
    var bno := s[b].blockno;
    var t, disk2 := s[b := u], disk[bno := s[b].data];
    forall c | 0 <= c < NBUF
      ensures BufOk(t[c], disk2, logical)
    {
      assert BufOk(s[c], disk, logical);
    }
    forall k: nat | k < |disk| && disk2[k] != logical[k]
      ensures exists c: nat :: c < NBUF && Caches(t[c], k) && t[c].valid
    {
      var c: nat :| c < NBUF && Caches(s[c], k) && s[c].valid;
      assert Caches(t[c], k) && t[c].valid;
    }
  }

  /** Of the nodes at and after position i, the first recyclable one seen from
      the tail was released before every other recyclable buffer. */
  lemma OldestRecyclable(s: seq<Buf>, order: seq<nat>, released: seq<nat>, clock: nat, i: nat)
    requires |s| == NBUF + 1 && Permutation(order) && ByRecency(order, released, clock) && i < NBUF
    requires forall j :: i < j < NBUF ==> !Recyclable(s[order[j]])
    ensures forall c: nat :: c < NBUF && Recyclable(s[c]) ==> released[order[i]] <= released[c]
  {
    forall c: nat | c < NBUF && Recyclable(s[c])
      ensures released[order[i]] <= released[c]
    {
      var k := IndexOf(order, c);
    }
  }

  lemma MoveToFrontRecency(order: seq<nat>, released: seq<nat>, clock: nat, b: nat)
    requires Permutation(order) && ByRecency(order, released, clock) && b < NBUF
    ensures ByRecency(MoveToFront(order, b), released[b := clock], clock + 1)
  {
    MoveToFrontPermutes(order, b);
    var p := IndexOf(order, b);
    var r, rel := MoveToFront(order, b), released[b := clock];
    forall i, j | 0 <= i < j < NBUF
      ensures rel[r[i]] > rel[r[j]]
    {
      assert i > 0 ==> r[i] == order[if i <= p then i - 1 else i];
      assert r[j] == order[if j <= p then j - 1 else j];
    }
  }

  class Cache {
    var disk: Disk
    const bufs: array<Buf>
    ghost var order: seq<nat>      // the list, most recently released first
    ghost var logical: Disk        // the latest contents of every block
    ghost var writes: seq<Write>   // all disk writes, in order
    ghost var released: seq<nat>   // when each buffer was last fully released
    ghost var clock: nat

    ghost predicate Valid()
      reads this, bufs
    {
      && bufs.Length == NBUF + 1 && |disk| == |logical|
      && Linked(bufs[..], order)
      && Coherent(bufs[..], disk, logical)
      && ByRecency(order, released, clock)
    }

    /** binit: link every buffer in at the front of an empty list. */
    constructor (d: Disk)
      ensures Valid() && fresh(bufs) && disk == d && logical == d && writes == []
      ensures forall b :: 0 <= b < NBUF ==> Recyclable(bufs[b]) && bufs[b].dev == 0
    {
      disk := d;
      bufs := new Buf[NBUF + 1](_ => Buf(0, 0, false, false, 0, 0, ZeroBlock(), HEAD, HEAD));
      new;
      order, logical, writes := [], d, [];
      for b := 0 to NBUF
        invariant |order| == b && disk == d && logical == d && writes == []
        invariant forall i :: 0 <= i < b ==> order[i] == b - 1 - i
        invariant forall i :: 0 <= i <= NBUF ==> Recyclable(bufs[i]) && bufs[i].dev == 0 && !bufs[i].valid && bufs[i].holder == 0
        invariant bufs[HEAD].next == if b == 0 then HEAD else b - 1
        invariant bufs[HEAD].prev == if b == 0 then HEAD else 0
        invariant forall i :: 0 <= i < b ==> bufs[i].next == if i == 0 then HEAD else i - 1
        invariant forall i :: 0 <= i < b ==> bufs[i].prev == if i == b - 1 then HEAD else i + 1
      {
        bufs[b] := bufs[b].(next := bufs[HEAD].next);
        bufs[b] := bufs[b].(prev := HEAD);
        bufs[bufs[HEAD].next] := bufs[bufs[HEAD].next].(prev := b);
        bufs[HEAD] := bufs[HEAD].(next := b);
        order := [b] + order;
      }
      released, clock := seq(NBUF, i => i), NBUF;
      FreshRing(bufs[..], order);
    }

    /** The buffer b may be used by the caller: it holds the lock and sees the
        latest contents. */
    ghost predicate Held(b: nat, pid: nat, bno: nat)
      reads this, bufs
    {
      && bufs.Length == NBUF + 1
      && b < NBUF && pid != 0
      && bufs[b].holder == pid && Caches(bufs[b], bno) && bufs[b].valid
    }

    /** bget up to the release of the cache lock: find the block or recycle the
        least recently released buffer that is neither referenced nor dirty.
        (The program panics when there is no such buffer.) */
    method Get(bno: nat) returns (b: nat)
      requires Valid() && bno < |disk|
      requires Cached(bufs[..], bno) || exists c: nat :: c < NBUF && Recyclable(bufs[c])
      modifies bufs
      ensures Valid() && b < NBUF && Caches(bufs[b], bno)
      ensures old(Cached(bufs[..], bno)) ==>
                && Caches(old(bufs[b]), bno)
                && bufs[..] == old(bufs[..])[b := old(bufs[b]).(refcnt := old(bufs[b]).refcnt + 1)]
      ensures !old(Cached(bufs[..], bno)) ==>
                && Recyclable(old(bufs[b])) && old(bufs[b]).refcnt == 0 && !old(bufs[b]).dirty
                && (forall c: nat :: c < NBUF && Recyclable(old(bufs[c])) ==> released[b] <= released[c])
                && bufs[..] == old(bufs[..])[b := old(bufs[b]).(dev := ROOTDEV, blockno := bno, valid := false,
                                                                dirty := false, refcnt := 1)]
    {
      ghost var s := bufs[..];
      var found;
      found, b := Find(bno);
      if found {
        SameBlockUpdate(s, disk, logical, b, s[b].(refcnt := s[b].refcnt + 1));
        bufs[b] := bufs[b].(refcnt := bufs[b].refcnt + 1);
        assert bufs[..] == s[b := s[b].(refcnt := s[b].refcnt + 1)];
      } else {
        b := Victim();
        ghost var u := s[b].(dev := ROOTDEV, blockno := bno, valid := false, dirty := false, refcnt := 1);
        assert s[b].holder == 0 by { assert BufOk(s[b], disk, logical); }
        RecycleKeeps(s, disk, logical, b, u);
        bufs[b] := bufs[b].(dev := ROOTDEV, blockno := bno, valid := false, dirty := false, refcnt := 1);
        assert bufs[..] == s[b := u];
      }
      LinksKept(s, bufs[..], order);
    }

    /** acquiresleep on the buffer's lock, at the moment the lock is free. */
    method Lock(b: nat, pid: nat)
      requires Valid() && b < NBUF && pid != 0
      requires bufs[b].refcnt > 0 && bufs[b].holder == 0
      modifies bufs
      ensures Valid() && bufs[..] == old(bufs[..])[b := old(bufs[b]).(holder := pid)]
    {
      ghost var s := bufs[..];
      SameBlockUpdate(s, disk, logical, b, s[b].(holder := pid));
      bufs[b] := bufs[b].(holder := pid);
      assert bufs[..] == s[b := s[b].(holder := pid)];
      LinksKept(s, bufs[..], order);
    }

    /** iderw on a buffer that is not dirty: read it in. */
    method Fill(b: nat)
      requires Valid() && b < NBUF && bufs[b].dev == ROOTDEV && bufs[b].holder != 0
      requires !bufs[b].valid
      modifies bufs
      ensures Valid() && bufs[b].blockno < |disk|
      ensures bufs[..] == old(bufs[..])[b := old(bufs[b]).(valid := true, data := logical[bufs[b].blockno])]
    {
      ghost var s := bufs[..];
      assert BufOk(s[b], disk, logical);
      FillIsLatest(s, disk, logical, b);
      ghost var u := s[b].(valid := true, data := disk[s[b].blockno]);
      SameBlockUpdate(s, disk, logical, b, u);
      bufs[b] := bufs[b].(data := disk[bufs[b].blockno], valid := true);
      assert bufs[..] == s[b := u];
      LinksKept(s, bufs[..], order);
    }

    /** bread: a locked buffer with the latest contents of the block, whatever
        was cached, recycled or written before. (A process that finds the buffer
        locked sleeps first; this is the run from the moment it is free.) */
    method Read(bno: nat, pid: nat) returns (b: nat)
      requires Valid() && bno < |disk| && pid != 0
      requires Cached(bufs[..], bno) || exists c: nat :: c < NBUF && Recyclable(bufs[c])
      requires forall c: nat :: c < NBUF && Caches(bufs[c], bno) ==> bufs[c].holder == 0
      modifies bufs
      ensures Valid() && Held(b, pid, bno) && bufs[b].data == logical[bno]
      ensures forall c: nat :: c <= NBUF && c != b ==> bufs[c] == old(bufs[c])
      ensures if old(Cached(bufs[..], bno))
              then Caches(old(bufs[b]), bno) && bufs[b] == old(bufs[b]).(refcnt := old(bufs[b]).refcnt + 1, holder := pid,
                                                                         valid := true, data := logical[bno])
              else Recyclable(old(bufs[b])) && bufs[b] == old(bufs[b]).(dev := ROOTDEV, blockno := bno, valid := true,
                                                                        refcnt := 1, holder := pid, data := logical[bno])
    {
      b := Get(bno);
      assert bufs[b].holder == 0 by { assert old(BufOk(bufs[..][b], disk, logical)); }
      Lock(b, pid);
      if !bufs[b].valid {
        Fill(b);
      }
      assert BufOk(bufs[..][b], disk, logical);
    }

    /** The holder changes the data of its buffer. */
    method Store(b: nat, ghost pid: nat, ghost bno: nat, data: Block)
      requires Valid() && Held(b, pid, bno)
      modifies bufs, this`logical
      ensures Valid() && Held(b, pid, bno) && bno < |disk|
      ensures logical == old(logical)[bno := data]
      ensures bufs[..] == old(bufs[..])[b := old(bufs[b]).(data := data)]
    {
      ghost var s := bufs[..];
      StoreKeeps(s, disk, logical, b, data);
      bufs[b] := bufs[b].(data := data);
      assert bufs[..] == s[b := s[b].(data := data)];
      logical := logical[bno := data];
      LinksKept(s, bufs[..], order);
    }

    /** log_write's pin: B_DIRTY keeps the buffer from being recycled. */
    method Pin(b: nat, ghost pid: nat, ghost bno: nat)
      requires Valid() && Held(b, pid, bno)
      modifies bufs
      ensures Valid() && Held(b, pid, bno)
      ensures bufs[..] == old(bufs[..])[b := old(bufs[b]).(dirty := true)]
    {
      ghost var s := bufs[..];
      SameBlockUpdate(s, disk, logical, b, s[b].(dirty := true));
      bufs[b] := bufs[b].(dirty := true);
      assert bufs[..] == s[b := s[b].(dirty := true)];
      LinksKept(s, bufs[..], order);
    }

    /** bwrite: one disk write of the latest contents; the buffer is clean. */
    method Write(b: nat, ghost pid: nat, ghost bno: nat)
      requires Valid() && Held(b, pid, bno)
      modifies bufs, this`disk, this`writes
      ensures Valid() && Held(b, pid, bno) && bno < |disk| && |disk| == old(|disk|)
      ensures disk == old(disk)[bno := logical[bno]]
      ensures writes == old(writes) + [DiskLog.Write(bno, logical[bno])]
      ensures bufs[..] == old(bufs[..])[b := old(bufs[b]).(dirty := false)]
    {
      ghost var s := bufs[..];
      assert BufOk(s[b], disk, logical);
      WriteOutKeeps(s, disk, logical, b, s[b].(dirty := false));
      bufs[b] := bufs[b].(dirty := true);
      bufs[b] := bufs[b].(dirty := false);
      disk := disk[bufs[b].blockno := bufs[b].data];
      writes := writes + [DiskLog.Write(bno, bufs[b].data)];
      bufs[b] := bufs[b].(valid := true);
      assert bufs[..] == s[b := s[b].(dirty := false)];
      LinksKept(s, bufs[..], order);
    }

    /** brelse: unlock; the last release moves the buffer to the front. The
        caller must have logged or written what it changed. */
    method Release(b: nat, ghost pid: nat, ghost bno: nat)
      requires Valid() && Held(b, pid, bno)
      requires bno < |disk| && (bufs[b].dirty || disk[bno] == logical[bno])
      modifies bufs, this`order, this`released, this`clock
      ensures Valid()
      ensures old(bufs[b]).refcnt > 0 && SameButLinks(bufs[b], old(bufs[b]).(holder := 0, refcnt := old(bufs[b]).refcnt - 1))
      ensures forall c: nat :: c < NBUF && c != b ==> SameButLinks(bufs[c], old(bufs[c]))
      ensures b in old(order)
      ensures order == if bufs[b].refcnt == 0 then MoveToFront(old(order), b) else old(order)
      ensures bufs[b].refcnt == 0 ==> forall c: nat :: c < NBUF && c != b ==> released[c] < released[b] && released[c] == old(released[c])
    {
      Unlock(b, pid, bno);
      if bufs[b].refcnt == 0 {
        MoveFront(b);
      }
    }

    /** The first half of brelse: releasesleep and the reference count. */
    method Unlock(b: nat, ghost pid: nat, ghost bno: nat)
      requires Valid() && Held(b, pid, bno)
      requires bno < |disk| && (bufs[b].dirty || disk[bno] == logical[bno])
      modifies bufs
      ensures Valid() && old(bufs[b]).refcnt > 0
      ensures bufs[..] == old(bufs[..])[b := old(bufs[b]).(holder := 0, refcnt := old(bufs[b]).refcnt - 1)]
    {
      ghost var s := bufs[..];
      assert BufOk(s[b], disk, logical);
      ghost var u := s[b].(holder := 0, refcnt := s[b].refcnt - 1);
      SameBlockUpdate(s, disk, logical, b, u);
      bufs[b] := bufs[b].(holder := 0);
      bufs[b] := bufs[b].(refcnt := bufs[b].refcnt - 1);
      assert bufs[..] == s[b := u];
      LinksKept(s, bufs[..], order);
    }

    /** The second half of brelse, for the last reference. */
    method MoveFront(b: nat)
      requires Valid() && b < NBUF
      modifies bufs, this`order, this`released, this`clock
      ensures Valid() && b in old(order) && order == MoveToFront(old(order), b)
      ensures forall c: nat :: c <= NBUF ==> SameButLinks(bufs[c], old(bufs[c]))
      ensures forall c: nat :: c < NBUF && c != b ==> released[c] < released[b] && released[c] == old(released[c])
    {
      ghost var s := bufs[..];
      Neighbours(s, order, IndexOf(order, b));
      ToFront(b);
      MoveToFrontRecency(order, released, clock, b);
      RelinkMoves(s, bufs[..], order, b);
      LinksOnly(s, bufs[..], disk, logical);
      order := MoveToFront(order, b);
      released := released[b := clock];
      clock := clock + 1;
    }

    /** The pointer updates at the end of brelse. */
    method ToFront(b: nat)
      requires bufs.Length == NBUF + 1 && b < NBUF
      requires bufs[b].prev <= NBUF && bufs[b].next <= NBUF && bufs[HEAD].next < NBUF
      requires bufs[b].prev != b && bufs[b].next != b
      requires bufs[b].prev == HEAD <==> bufs[HEAD].next == b
      requires bufs[b].prev == HEAD ==> bufs[b].next < NBUF && bufs[bufs[b].next].prev == b
      modifies bufs
      ensures Relinked(old(bufs[..]), bufs[..], b)
      ensures forall c: nat :: c <= NBUF ==> SameButLinks(bufs[c], old(bufs[c]))
    {
      Unlink(b);
      LinkFront(b);
    }

    method Unlink(b: nat)
      requires bufs.Length == NBUF + 1 && b < NBUF
      requires bufs[b].prev <= NBUF && bufs[b].next <= NBUF && bufs[b].prev != b && bufs[b].next != b
      modifies bufs
      ensures forall x: nat {:trigger bufs[x]} :: x <= NBUF ==>
                bufs[x] == old(bufs[x]).(next := if x == old(bufs[b]).prev then old(bufs[b]).next else old(bufs[x]).next,
                                         prev := if x == old(bufs[b]).next then old(bufs[b]).prev else old(bufs[x]).prev)
    {
      bufs[bufs[b].next] := bufs[bufs[b].next].(prev := bufs[b].prev);
      bufs[bufs[b].prev] := bufs[bufs[b].prev].(next := bufs[b].next);
    }

    method LinkFront(b: nat)
      requires bufs.Length == NBUF + 1 && b < NBUF && bufs[HEAD].next < NBUF && bufs[HEAD].next != b
      modifies bufs
      ensures forall x: nat {:trigger bufs[x]} :: x <= NBUF ==>
                bufs[x] == old(bufs[x]).(next := if x == HEAD then b else if x == b then old(bufs[HEAD]).next else old(bufs[x]).next,
                                         prev := if x == b then HEAD else if x == old(bufs[HEAD]).next then b else old(bufs[x]).prev)
    {
      bufs[b] := bufs[b].(next := bufs[HEAD].next);
      bufs[b] := bufs[b].(prev := HEAD);
      bufs[bufs[HEAD].next] := bufs[bufs[HEAD].next].(prev := b);
      bufs[HEAD] := bufs[HEAD].(next := b);
    }

    /** The first loop of bget: is the block already cached? */
    method Find(bno: nat) returns (found: bool, b: nat)
      requires Valid()
      ensures found == Cached(bufs[..], bno)
      ensures found ==> b < NBUF && Caches(bufs[b], bno)
    {
      WalkedAll(bufs[..], order, bno);
      assert LinkAt(bufs[..], order, 0);
      b := bufs[HEAD].next;
      ghost var i := 0;
      while b != HEAD
        invariant 0 <= i <= NBUF && b == Node(order, i + 1)
        invariant forall j :: 0 <= j < i ==> !Caches(bufs[order[j]], bno)
        decreases NBUF - i
      {
        if bufs[b].dev == ROOTDEV && bufs[b].blockno == bno {
          return true, b;
        }
        assert LinkAt(bufs[..], order, i + 1);
        b := bufs[b].next;
        i := i + 1;
      }
      found := false;
    }

    /** The second loop of bget, from the tail of the list. */
    method Victim() returns (b: nat)
      requires Valid()
      requires exists c: nat :: c < NBUF && Recyclable(bufs[c])
      ensures b < NBUF && Recyclable(bufs[b])
      ensures forall c: nat :: c < NBUF && Recyclable(bufs[c]) ==> released[b] <= released[c]
    {
      ghost var i := NBUF;
      WalkedAll(bufs[..], order, 0);
      assert LinkAt(bufs[..], order, NBUF);
      b := bufs[HEAD].prev;
      while b != HEAD
        invariant 0 <= i <= NBUF && b == Node(order, i)
        invariant forall j :: i <= j < NBUF ==> !Recyclable(bufs[order[j]])
        decreases i
      {
        if bufs[b].refcnt == 0 && !bufs[b].dirty {
          OldestRecyclable(bufs[..], order, released, clock, i - 1);
          return;
        }
        assert LinkAt(bufs[..], order, i - 1);
        b := bufs[b].prev;
        i := i - 1;
      }
      assert false;
    }
  }

  lemma LinksKept(s: seq<Buf>, t: seq<Buf>, order: seq<nat>)
    requires Linked(s, order) && |t| == |s|
    requires forall i :: 0 <= i <= NBUF ==> t[i].next == s[i].next && t[i].prev == s[i].prev
    ensures Linked(t, order)
  {
    forall i | 0 <= i <= NBUF
      ensures LinkAt(t, order, i)
    {
      assert LinkAt(s, order, i);
    }
  }

  lemma LinksOnly(s: seq<Buf>, t: seq<Buf>, disk: Disk, logical: Disk)
    requires Coherent(s, disk, logical) && |t| == |s|
    requires forall c: nat :: c <= NBUF ==> SameButLinks(t[c], s[c])
    ensures Coherent(t, disk, logical)
  {
    forall bno: nat | bno < |disk| && disk[bno] != logical[bno]
      ensures exists c: nat :: c < NBUF && Caches(t[c], bno) && t[c].valid
    {
      var c: nat :| c < NBUF && Caches(s[c], bno) && s[c].valid;
      assert Caches(t[c], bno) && t[c].valid;
    }
    forall c | 0 <= c < NBUF
      ensures BufOk(t[c], disk, logical)
    {
      assert BufOk(s[c], disk, logical);
    }
  }

  lemma FreshRing(s: seq<Buf>, order: seq<nat>)
    requires |s| == NBUF + 1 && |order| == NBUF
    requires forall i :: 0 <= i < NBUF ==> order[i] == NBUF - 1 - i
    requires s[HEAD].next == NBUF - 1 && s[HEAD].prev == 0
    requires forall i :: 0 <= i < NBUF ==> s[i].next == if i == 0 then HEAD else i - 1
    requires forall i :: 0 <= i < NBUF ==> s[i].prev == if i == NBUF - 1 then HEAD else i + 1
    ensures Linked(s, order) && ByRecency(order, seq(NBUF, i => i), NBUF)
  {
    forall b | 0 <= b < NBUF
      ensures b in order
    {
      assert order[NBUF - 1 - b] == b;
    }
  }
}
