/** The on-disk redo log as a value: the disk writes that a commit and a
    recovery issue, in order, and what a crash after any number of them leaves
    behind. The log occupies blocks start .. start + size - 1: one header block
    followed by the logged copies. Every other block is a home block. */
module DiskLog {
  import opened Blocks

  const MAXOPBLOCKS := 10
  const LOGSIZE := MAXOPBLOCKS * 3

  type Disk = seq<Block>

  datatype Write = Write(bno: nat, data: Block)

  datatype Layout = Layout(start: nat, size: nat)
  {
    ghost predicate Fits(d: Disk) {
      1 <= size && start + size <= |d|
    }

    ghost predicate Home(b: nat) {
      b < start || start + size <= b
    }
  }

  ghost predicate InRange(d: Disk, ws: seq<Write>) {
    forall i :: 0 <= i < |ws| ==> ws[i].bno < |d|
  }

  /** The disk after the writes ws, issued first to last. */
  ghost function Apply(d: Disk, ws: seq<Write>): (r: Disk)
    requires InRange(d, ws)
    ensures |r| == |d|
  {
    if ws == [] then d
    else
      var n := |ws| - 1;
      assert forall i :: 0 <= i < n ==> ws[..n][i] == ws[i];
      Apply(d, ws[..n])[ws[n].bno := ws[n].data]
  }

  ghost predicate SameHome(l: Layout, d: Disk, e: Disk) {
    |d| == |e| && forall b: nat :: b < |d| && l.Home(b) ==> d[b] == e[b]
  }

  // ---- the header block

  ghost function HeadCount(l: Layout, d: Disk): (n: nat)
    requires l.Fits(d)
  {
    Word(d[l.start], 0)
  }

  ghost function HeadBlocks(l: Layout, d: Disk): (bl: seq<nat>)
    requires l.Fits(d) && HeadCount(l, d) <= LOGSIZE
    ensures |bl| == HeadCount(l, d)
  {
    seq(HeadCount(l, d), i requires 0 <= i < LOGSIZE => Word(d[l.start], 1 + i))
  }

  /** What the code relies on for a list of logged block numbers. */
  ghost predicate Loggable(l: Layout, size: nat, bl: seq<nat>) {
    && |bl| <= LOGSIZE
    && |bl| < l.size
    && Distinct(bl)
    && forall i :: 0 <= i < |bl| ==> bl[i] < size && bl[i] < UINT_LIMIT && l.Home(bl[i])
  }

  ghost predicate HeadOk(l: Layout, d: Disk) {
    && l.Fits(d)
    && HeadCount(l, d) <= LOGSIZE
    && Loggable(l, |d|, HeadBlocks(l, d))
  }

  ghost predicate FitWords(bl: seq<nat>) {
    forall i :: 0 <= i < |bl| ==> bl[i] < UINT_LIMIT
  }

  function PutBlocks(b: Block, bl: seq<nat>): (r: Block)
    requires |bl| <= LOGSIZE
    requires FitWords(bl)
  {
    if bl == [] then b
    else SetWord(PutBlocks(b, bl[..|bl| - 1]), |bl|, bl[|bl| - 1])
  }

  /** The header block after write_head stores the list bl over b. */
  function PutHead(b: Block, bl: seq<nat>): (r: Block)
    requires |bl| <= LOGSIZE
    requires FitWords(bl)
  {
    PutBlocks(SetWord(b, 0, |bl|), bl)
  }

  lemma {:induction false} PutBlocksWords(b: Block, bl: seq<nat>, j: nat)
    requires |bl| <= LOGSIZE && j < WORDS
    requires FitWords(bl)
    ensures Word(PutBlocks(b, bl), j) == if 1 <= j <= |bl| then bl[j - 1] else Word(b, j)
  {
    if bl != [] {
      PutBlocksWords(b, bl[..|bl| - 1], j);
      WordSetWord(PutBlocks(b, bl[..|bl| - 1]), |bl|, bl[|bl| - 1], j);
    }
  }

  /** read_head gives back exactly the list that write_head stored. */
  lemma HeadRoundTrip(l: Layout, d: Disk, b: Block, bl: seq<nat>)
    requires l.Fits(d) && |bl| <= LOGSIZE
    requires FitWords(bl)
    requires d[l.start] == PutHead(b, bl)
    ensures HeadCount(l, d) == |bl| && HeadBlocks(l, d) == bl
  {
    PutBlocksWords(SetWord(b, 0, |bl|), bl, 0);
    WordSetWord(b, 0, |bl|, 0);
    forall i | 0 <= i < |bl|
      ensures Word(d[l.start], 1 + i) == bl[i]
    {
      PutBlocksWords(SetWord(b, 0, |bl|), bl, 1 + i);
    }
  }

  /** The header block holds the count in its first word and the block numbers in
      the words behind it. */
  lemma HeadLayout(b: Block, bl: seq<nat>, j: nat)
    requires |bl| <= LOGSIZE && FitWords(bl) && j < WORDS
    ensures Word(PutHead(b, bl), j) == if j == 0 then |bl| else if j <= |bl| then bl[j - 1] else Word(b, j)
  {
    PutBlocksWords(SetWord(b, 0, |bl|), bl, j);
    WordSetWord(b, 0, |bl|, j);
  }

  // ---- the writes of a commit and of a recovery

  ghost function LogWrites(l: Layout, data: seq<Block>): (ws: seq<Write>)
  {
    seq(|data|, i requires 0 <= i < |data| => Write(l.start + 1 + i, data[i]))
  }

  ghost function InstallWrites(bl: seq<nat>, data: seq<Block>): (ws: seq<Write>)
    requires |bl| == |data|
  {
    seq(|data|, i requires 0 <= i < |data| => Write(bl[i], data[i]))
  }

  /** commit(): logged copies, header, home blocks, cleared header. */
  ghost function CommitWrites(l: Layout, head: Block, bl: seq<nat>, data: seq<Block>): (ws: seq<Write>)
    requires |bl| == |data| && |bl| <= LOGSIZE
    requires FitWords(bl)
  {
    if |bl| == 0 then []
    else
      LogWrites(l, data) + [Write(l.start, PutHead(head, bl))]
      + InstallWrites(bl, data) + [Write(l.start, PutHead(PutHead(head, bl), []))]
  }

  /** In which order commit writes what where. */
  lemma CommitOrder(l: Layout, head: Block, bl: seq<nat>, data: seq<Block>, i: nat)
    requires |bl| == |data| && 0 < |bl| <= LOGSIZE && FitWords(bl) && i < |bl|
    ensures var ws, n := CommitWrites(l, head, bl, data), |bl|;
            && |ws| == 2 * n + 2
            && ws[i] == Write(l.start + 1 + i, data[i]) && ws[n] == Write(l.start, PutHead(head, bl))
            && ws[n + 1 + i] == Write(bl[i], data[i]) && ws[2 * n + 1] == Write(l.start, PutHead(PutHead(head, bl), []))
  {
  }

  ghost function LoggedData(l: Layout, d: Disk): (data: seq<Block>)
    requires HeadOk(l, d)
  {
    d[l.start + 1..l.start + 1 + HeadCount(l, d)]
  }

  /** recover_from_log(): home blocks from the log, then a cleared header. */
  ghost function RecoverWrites(l: Layout, d: Disk): (ws: seq<Write>)
    requires HeadOk(l, d)
    ensures InRange(d, ws)
  {
    InstallWrites(HeadBlocks(l, d), LoggedData(l, d)) + [Write(l.start, PutHead(d[l.start], []))]
  }

  ghost function Recovered(l: Layout, d: Disk): (r: Disk)
    requires HeadOk(l, d)
    ensures |r| == |d|
  {
    Apply(d, RecoverWrites(l, d))
  }

  /** The disk in which every listed home block holds its new contents. */
  ghost function Updated(d: Disk, bl: seq<nat>, data: seq<Block>): (r: Disk)
    requires |bl| == |data|
    requires forall i :: 0 <= i < |bl| ==> bl[i] < |d|
    ensures |r| == |d|
  {
    Apply(d, InstallWrites(bl, data))
  }

  // ---- reasoning about sequences of writes

  lemma {:induction false} ApplyAppend(d: Disk, u: seq<Write>, v: seq<Write>)
    requires InRange(d, u) && InRange(d, v)
    ensures InRange(d, u + v)
    ensures Apply(d, u + v) == Apply(Apply(d, u), v)
  {
    if v == [] {
      assert u + v == u;
    } else {
      var n := |v| - 1;
      assert (u + v)[..|u + v| - 1] == u + v[..n];
      ApplyAppend(d, u, v[..n]);
    }
  }

  /** Blocks that no write names keep their contents. */
  lemma {:induction false} ApplyFrame(d: Disk, ws: seq<Write>, b: nat)
    requires InRange(d, ws) && b < |d|
    requires forall i :: 0 <= i < |ws| ==> ws[i].bno != b
    ensures Apply(d, ws)[b] == d[b]
  {
    if ws != [] {
      ApplyFrame(d, ws[..|ws| - 1], b);
    }
  }

  /** The last write that names a block decides its contents. */
  lemma {:induction false} ApplyLast(d: Disk, ws: seq<Write>, b: nat, i: nat)
    requires InRange(d, ws) && b < |d| && i < |ws|
    requires ws[i].bno == b
    requires forall j :: i < j < |ws| ==> ws[j].bno != b
    ensures Apply(d, ws)[b] == ws[i].data
  {
    if i < |ws| - 1 {
      ApplyLast(d, ws[..|ws| - 1], b, i);
    }
  }

  /** Installing the first k of the listed blocks. */
  lemma InstallEffect(d: Disk, bl: seq<nat>, data: seq<Block>, k: nat)
    requires |bl| == |data| && k <= |bl| && Distinct(bl)
    requires forall i :: 0 <= i < |bl| ==> bl[i] < |d|
    ensures InRange(d, InstallWrites(bl, data)[..k])
    ensures forall i :: 0 <= i < k ==> Apply(d, InstallWrites(bl, data)[..k])[bl[i]] == data[i]
    ensures forall b: nat :: b < |d| && b !in bl[..k] ==> Apply(d, InstallWrites(bl, data)[..k])[b] == d[b]
  {
    var ws := InstallWrites(bl, data)[..k];
    forall i | 0 <= i < k
      ensures Apply(d, ws)[bl[i]] == data[i]
    {
      ApplyLast(d, ws, bl[i], i);
    }
    forall b: nat | b < |d| && b !in bl[..k]
      ensures Apply(d, ws)[b] == d[b]
    {
      forall i | 0 <= i < |ws|
        ensures ws[i].bno != b
      {
        assert bl[..k][i] == ws[i].bno;
      }
      ApplyFrame(d, ws, b);
    }
  }

  lemma UpdatedEffect(d: Disk, bl: seq<nat>, data: seq<Block>)
    requires |bl| == |data| && Distinct(bl)
    requires forall i :: 0 <= i < |bl| ==> bl[i] < |d|
    ensures forall i :: 0 <= i < |bl| ==> Updated(d, bl, data)[bl[i]] == data[i]
    ensures forall b: nat :: b < |d| && b !in bl ==> Updated(d, bl, data)[b] == d[b]
  {
    var ws := InstallWrites(bl, data);
    assert ws[..|bl|] == ws && bl[..|bl|] == bl;
    InstallEffect(d, bl, data, |bl|);
  }

  /** Recovery sets the home blocks to the logged copies and empties the log. */
  lemma RecoveredEffect(l: Layout, d: Disk)
    requires HeadOk(l, d)
    ensures SameHome(l, Recovered(l, d), Updated(d, HeadBlocks(l, d), LoggedData(l, d)))
    ensures HeadCount(l, Recovered(l, d)) == 0
    ensures HeadOk(l, Recovered(l, d))
  {
    var bl, data := HeadBlocks(l, d), LoggedData(l, d);
    var ws := InstallWrites(bl, data);
    var last := Write(l.start, PutHead(d[l.start], []));
    var r := Recovered(l, d);
    assert (ws + [last])[..|ws|] == ws;
    assert r == Updated(d, bl, data)[l.start := last.data];
    HeadRoundTrip(l, r, d[l.start], []);
  }

  /** A disk whose header is empty recovers to itself on the home blocks. */
  lemma RecoveredEmpty(l: Layout, d: Disk)
    requires l.Fits(d) && HeadCount(l, d) == 0
    ensures HeadOk(l, d) && SameHome(l, Recovered(l, d), d)
  {
    RecoveredEffect(l, d);
    assert HeadBlocks(l, d) == [];
  }

  /** If two disks agree on header and logged copies, and on all home blocks
      that the log does not name, they recover to the same home blocks. */
  lemma RecoveredAgree(l: Layout, d: Disk, e: Disk)
    requires HeadOk(l, d) && l.Fits(e) && |d| == |e|
    requires HeadCount(l, e) == HeadCount(l, d) && HeadBlocks(l, e) == HeadBlocks(l, d)
    requires e[l.start + 1..l.start + 1 + HeadCount(l, d)] == LoggedData(l, d)
    requires forall b: nat :: b < |d| && l.Home(b) && b !in HeadBlocks(l, d) ==> e[b] == d[b]
    ensures HeadOk(l, e) && SameHome(l, Recovered(l, e), Recovered(l, d))
  {
    RecoveredEffect(l, d);
    RecoveredEffect(l, e);
    var bl := HeadBlocks(l, d);
    assert LoggedData(l, e) == LoggedData(l, d);
    UpdatedEffect(d, bl, LoggedData(l, d));
    UpdatedEffect(e, bl, LoggedData(l, d));
    forall b: nat | b < |d| && l.Home(b)
      ensures Updated(e, bl, LoggedData(l, d))[b] == Updated(d, bl, LoggedData(l, d))[b]
    {
      if b in bl {
        var i :| 0 <= i < |bl| && bl[i] == b;
      }
    }
  }

  // ---- crash atomicity

  /** Installing some of the logged blocks does not change what recovery yields. */
  lemma PartialInstall(l: Layout, d: Disk, k: nat)
    requires HeadOk(l, d) && k <= HeadCount(l, d)
    ensures InRange(d, InstallWrites(HeadBlocks(l, d), LoggedData(l, d))[..k])
    ensures var e := Apply(d, InstallWrites(HeadBlocks(l, d), LoggedData(l, d))[..k]);
            HeadOk(l, e) && SameHome(l, Recovered(l, e), Recovered(l, d))
  {
    var bl, data := HeadBlocks(l, d), LoggedData(l, d);
    InstallEffect(d, bl, data, k);
    RecoveredAgree(l, d, Apply(d, InstallWrites(bl, data)[..k]));
  }

  /** A crash after k of recovery's writes: recovering again reaches the home
      blocks that an uninterrupted recovery would have reached. */
  lemma RecoveryCrash(l: Layout, d: Disk, k: nat)
    requires HeadOk(l, d) && k <= |RecoverWrites(l, d)|
    ensures InRange(d, RecoverWrites(l, d)[..k])
    ensures HeadOk(l, Apply(d, RecoverWrites(l, d)[..k]))
    ensures SameHome(l, Recovered(l, Apply(d, RecoverWrites(l, d)[..k])), Recovered(l, d))
  {
    var bl, data := HeadBlocks(l, d), LoggedData(l, d);
    var ws := RecoverWrites(l, d);
    if k == |ws| {
      assert ws[..k] == ws;
      RecoveredEffect(l, d);
      RecoveredEmpty(l, Recovered(l, d));
    } else {
      assert ws[..k] == InstallWrites(bl, data)[..k];
      PartialInstall(l, d, k);
    }
  }

  /** The disk left by recoveries that crash after ks[0], ks[1], ... writes. */
  ghost function CrashedRecoveries(l: Layout, d: Disk, ks: seq<nat>): (r: Disk)
    requires HeadOk(l, d)
    ensures HeadOk(l, r)
    decreases |ks|
  {
    if ks == [] then d
    else
      var k := if ks[0] <= |RecoverWrites(l, d)| then ks[0] else |RecoverWrites(l, d)|;
      RecoveryCrash(l, d, k);
      CrashedRecoveries(l, Apply(d, RecoverWrites(l, d)[..k]), ks[1..])
  }

  /** However often and wherever recovery crashes, the recovery that completes
      yields the same home blocks. */
  lemma {:induction false} RepeatedRecoveryCrash(l: Layout, d: Disk, ks: seq<nat>)
    requires HeadOk(l, d)
    ensures SameHome(l, Recovered(l, CrashedRecoveries(l, d, ks)), Recovered(l, d))
    decreases |ks|
  {
    if ks != [] {
      var k := if ks[0] <= |RecoverWrites(l, d)| then ks[0] else |RecoverWrites(l, d)|;
      RecoveryCrash(l, d, k);
      RepeatedRecoveryCrash(l, Apply(d, RecoverWrites(l, d)[..k]), ks[1..]);
    }
  }

  lemma CommitWritesInRange(l: Layout, d: Disk, bl: seq<nat>, data: seq<Block>)
    requires l.Fits(d) && |bl| == |data| && Loggable(l, |d|, bl)
    ensures InRange(d, CommitWrites(l, d[l.start], bl, data))
  {
  }

  /** While the logged copies are being written only the log area changes. */
  lemma LogWritesEffect(l: Layout, d: Disk, data: seq<Block>, k: nat)
    requires l.Fits(d) && |data| < l.size && k <= |data|
    ensures InRange(d, LogWrites(l, data)[..k])
    ensures Apply(d, LogWrites(l, data)[..k])[l.start] == d[l.start]
    ensures Apply(d, LogWrites(l, data)[..k])[l.start + 1..l.start + 1 + k] == data[..k]
    ensures SameHome(l, Apply(d, LogWrites(l, data)[..k]), d)
  {
    var ws := LogWrites(l, data)[..k];
    var c := Apply(d, ws);
    ApplyFrame(d, ws, l.start);
    forall i | 0 <= i < k ensures c[l.start + 1 + i] == data[i] {
      ApplyLast(d, ws, l.start + 1 + i, i);
    }
    forall b: nat | b < |d| && l.Home(b) ensures c[b] == d[b] {
      ApplyFrame(d, ws, b);
    }
  }

  /** The disk right after the header write of a commit. */
  ghost function Committed(l: Layout, d: Disk, bl: seq<nat>, data: seq<Block>): (r: Disk)
    requires l.Fits(d) && |bl| == |data| && Loggable(l, |d|, bl)
    ensures |r| == |d|
  {
    LogWritesEffect(l, d, data, |data|);
    assert LogWrites(l, data)[..|data|] == LogWrites(l, data);
    Apply(d, LogWrites(l, data))[l.start := PutHead(d[l.start], bl)]
  }

  lemma CommittedEffect(l: Layout, d: Disk, bl: seq<nat>, data: seq<Block>)
    requires l.Fits(d) && |bl| == |data| && Loggable(l, |d|, bl)
    ensures HeadOk(l, Committed(l, d, bl, data))
    ensures HeadBlocks(l, Committed(l, d, bl, data)) == bl
    ensures LoggedData(l, Committed(l, d, bl, data)) == data
    ensures SameHome(l, Committed(l, d, bl, data), d)
  {
    LogWritesEffect(l, d, data, |data|);
    assert LogWrites(l, data)[..|data|] == LogWrites(l, data);
    HeadRoundTrip(l, Committed(l, d, bl, data), d[l.start], bl);
  }

  lemma SameUpdates(l: Layout, d: Disk, e: Disk, bl: seq<nat>, data: seq<Block>)
    requires |bl| == |data| && Distinct(bl) && SameHome(l, d, e)
    requires forall i :: 0 <= i < |bl| ==> bl[i] < |d|
    ensures SameHome(l, Updated(d, bl, data), Updated(e, bl, data))
  {
    UpdatedEffect(d, bl, data);
    UpdatedEffect(e, bl, data);
    forall b: nat | b < |d| && l.Home(b)
      ensures Updated(d, bl, data)[b] == Updated(e, bl, data)[b]
    {
      if b in bl {
        var i :| 0 <= i < |bl| && bl[i] == b;
      }
    }
  }

  lemma CommittedRecovers(l: Layout, d: Disk, bl: seq<nat>, data: seq<Block>)
    requires l.Fits(d) && |bl| == |data| && Loggable(l, |d|, bl)
    ensures HeadOk(l, Committed(l, d, bl, data))
    ensures SameHome(l, Recovered(l, Committed(l, d, bl, data)), Updated(d, bl, data))
  {
    var h := Committed(l, d, bl, data);
    CommittedEffect(l, d, bl, data);
    RecoveredEffect(l, h);
    SameUpdates(l, h, d, bl, data);
  }

  /** After the header write, and while the home blocks are being installed,
      the whole transaction is committed. */
  lemma CrashInInstall(l: Layout, d: Disk, bl: seq<nat>, data: seq<Block>, k: nat)
    requires l.Fits(d) && |bl| == |data| && Loggable(l, |d|, bl)
    requires k <= |bl|
    ensures InRange(Committed(l, d, bl, data), InstallWrites(bl, data)[..k])
    ensures var e := Apply(Committed(l, d, bl, data), InstallWrites(bl, data)[..k]);
            HeadOk(l, e) && SameHome(l, Recovered(l, e), Updated(d, bl, data))
  {
    var h := Committed(l, d, bl, data);
    CommittedRecovers(l, d, bl, data);
    CommittedEffect(l, d, bl, data);
    PartialInstall(l, h, k);
  }

  /** The first three phases of a commit end in Committed plus k installed blocks. */
  lemma CommitPrefix(l: Layout, d: Disk, bl: seq<nat>, data: seq<Block>, k: nat)
    requires l.Fits(d) && |bl| == |data| && Loggable(l, |d|, bl) && 0 < |bl| && k <= |bl|
    ensures InRange(d, CommitWrites(l, d[l.start], bl, data)[..|bl| + 1 + k])
    ensures InRange(Committed(l, d, bl, data), InstallWrites(bl, data)[..k])
    ensures Apply(d, CommitWrites(l, d[l.start], bl, data)[..|bl| + 1 + k])
         == Apply(Committed(l, d, bl, data), InstallWrites(bl, data)[..k])
  {
    hide PutHead, Word;
    CommitWritesInRange(l, d, bl, data);
    var lw := LogWrites(l, data);
    var hw := Write(l.start, PutHead(d[l.start], bl));
    var iw := InstallWrites(bl, data)[..k];
    assert CommitWrites(l, d[l.start], bl, data)[..|bl| + 1 + k] == (lw + [hw]) + iw;
    assert (lw + [hw])[..|lw|] == lw;
    ApplyAppend(d, lw + [hw], iw);
  }

  lemma ClearHead(l: Layout, d: Disk, b: Block)
    requires l.Fits(d)
    ensures HeadCount(l, d[l.start := PutHead(b, [])]) == 0
    ensures SameHome(l, d[l.start := PutHead(b, [])], d)
  {
    HeadRoundTrip(l, d[l.start := PutHead(b, [])], b, []);
  }

  lemma InstalledAll(l: Layout, d: Disk, bl: seq<nat>, data: seq<Block>)
    requires l.Fits(d) && |bl| == |data| && Loggable(l, |d|, bl) && 0 < |bl|
    ensures var ws := CommitWrites(l, d[l.start], bl, data);
            InRange(d, ws[..|ws| - 1]) && SameHome(l, Apply(d, ws[..|ws| - 1]), Updated(d, bl, data))
  {
    CommitPrefix(l, d, bl, data, |bl|);
    assert InstallWrites(bl, data)[..|bl|] == InstallWrites(bl, data);
    CommittedEffect(l, d, bl, data);
    SameUpdates(l, Committed(l, d, bl, data), d, bl, data);
  }

  lemma CommitTotal(l: Layout, d: Disk, bl: seq<nat>, data: seq<Block>)
    requires l.Fits(d) && |bl| == |data| && Loggable(l, |d|, bl) && 0 < |bl|
    ensures InRange(d, CommitWrites(l, d[l.start], bl, data))
    ensures SameHome(l, Apply(d, CommitWrites(l, d[l.start], bl, data)), Updated(d, bl, data))
    ensures HeadCount(l, Apply(d, CommitWrites(l, d[l.start], bl, data))) == 0
  {
    CommitWritesInRange(l, d, bl, data);
    var ws := CommitWrites(l, d[l.start], bl, data);
    var n := |ws| - 1;
    assert ws[n] == Write(l.start, PutHead(PutHead(d[l.start], bl), []));
    InstalledAll(l, d, bl, data);
    assert Apply(d, ws) == Apply(d, ws[..n])[l.start := PutHead(PutHead(d[l.start], bl), [])];
    ClearHead(l, Apply(d, ws[..n]), PutHead(d[l.start], bl));
  }

  /** A completed commit leaves the updates at home and an empty log. */
  lemma CommitComplete(l: Layout, d: Disk, bl: seq<nat>, data: seq<Block>)
    requires l.Fits(d) && |bl| == |data| && Loggable(l, |d|, bl) && HeadCount(l, d) == 0
    ensures InRange(d, CommitWrites(l, d[l.start], bl, data))
    ensures SameHome(l, Apply(d, CommitWrites(l, d[l.start], bl, data)), Updated(d, bl, data))
    ensures HeadCount(l, Apply(d, CommitWrites(l, d[l.start], bl, data))) == 0
  {
    if |bl| > 0 {
      CommitTotal(l, d, bl, data);
    } else {
      assert InstallWrites(bl, data) == [];
    }
  }

  /** The disk left by a crash after k of commit's writes. */
  ghost function CommitCrashed(l: Layout, d: Disk, bl: seq<nat>, data: seq<Block>, k: nat): (r: Disk)
    requires l.Fits(d) && |bl| == |data| && Loggable(l, |d|, bl)
    requires k <= |CommitWrites(l, d[l.start], bl, data)|
    ensures |r| == |d|
  {
    CommitWritesInRange(l, d, bl, data);
    Apply(d, CommitWrites(l, d[l.start], bl, data)[..k])
  }

  lemma CrashBeforeHeader(l: Layout, d: Disk, bl: seq<nat>, data: seq<Block>, k: nat)
    requires l.Fits(d) && |bl| == |data| && Loggable(l, |d|, bl) && HeadCount(l, d) == 0
    requires 0 < |bl| && k <= |bl|
    ensures HeadOk(l, CommitCrashed(l, d, bl, data, k))
    ensures SameHome(l, Recovered(l, CommitCrashed(l, d, bl, data, k)), d)
  {
    assert CommitWrites(l, d[l.start], bl, data)[..k] == LogWrites(l, data)[..k];
    LogWritesEffect(l, d, data, k);
    RecoveredEmpty(l, CommitCrashed(l, d, bl, data, k));
  }

  lemma CrashAfterHeader(l: Layout, d: Disk, bl: seq<nat>, data: seq<Block>, k: nat)
    requires l.Fits(d) && |bl| == |data| && Loggable(l, |d|, bl)
    requires |bl| < k <= |CommitWrites(l, d[l.start], bl, data)|
    ensures HeadOk(l, CommitCrashed(l, d, bl, data, k))
    ensures SameHome(l, Recovered(l, CommitCrashed(l, d, bl, data, k)), Updated(d, bl, data))
  {
    hide PutHead, Word, Recovered, Updated, HeadBlocks;
    if k <= 2 * |bl| + 1 {
      CommitPrefix(l, d, bl, data, k - |bl| - 1);
      CrashInInstall(l, d, bl, data, k - |bl| - 1);
    } else {
      var ws := CommitWrites(l, d[l.start], bl, data);
      assert ws[..k] == ws;
      CommitTotal(l, d, bl, data);
      RecoveredEmpty(l, CommitCrashed(l, d, bl, data, k));
    }
  }

  /** Crash atomicity of commit: after a crash between any two of its disk
      writes, recovery yields the home blocks from before the transaction when
      the header was not yet written, and all of its updates otherwise. */
  lemma CommitCrash(l: Layout, d: Disk, bl: seq<nat>, data: seq<Block>, k: nat)
    requires l.Fits(d) && |bl| == |data| && Loggable(l, |d|, bl) && HeadCount(l, d) == 0
    requires k <= |CommitWrites(l, d[l.start], bl, data)|
    ensures HeadOk(l, CommitCrashed(l, d, bl, data, k))
    ensures SameHome(l, Recovered(l, CommitCrashed(l, d, bl, data, k)),
                        if k <= |bl| then d else Updated(d, bl, data))
  {
    if |bl| == 0 {
      RecoveredEmpty(l, d);
    } else if k <= |bl| {
      CrashBeforeHeader(l, d, bl, data, k);
    } else {
      CrashAfterHeader(l, d, bl, data, k);
    }
  }

  /** Whole story of one transaction: crash anywhere in commit, then any number
      of crashes during recovery; the final recovery is all or nothing. */
  lemma CrashAtomicity(l: Layout, d: Disk, bl: seq<nat>, data: seq<Block>, k: nat, ks: seq<nat>)
    requires l.Fits(d) && |bl| == |data| && Loggable(l, |d|, bl) && HeadCount(l, d) == 0
    requires k <= |CommitWrites(l, d[l.start], bl, data)|
    ensures HeadOk(l, CommitCrashed(l, d, bl, data, k))
    ensures SameHome(l, Recovered(l, CrashedRecoveries(l, CommitCrashed(l, d, bl, data, k), ks)),
                        if k <= |bl| then d else Updated(d, bl, data))
  {
    CommitCrash(l, d, bl, data, k);
    RepeatedRecoveryCrash(l, CommitCrashed(l, d, bl, data, k), ks);
  }
}
