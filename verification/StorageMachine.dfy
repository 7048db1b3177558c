/** The storage stack under concurrency and crashes. Processes run operations
    (begin_op .. log_write .. end_op), reads that meet a hole call log_write
    beside them without a reservation, and so do operations that log more than
    begin_op has set aside for them; blocks are loaded into the cache and
    recycled at any moment, a commit issues one disk write per step, and the
    machine may crash between any two steps, also while it recovers. log_write is
    two steps: it makes its tests before it takes the log's lock. The result is a
    simulation: seen through recovery, the disk is a durable copy of the home
    blocks that only changes when a commit replaces it, as a whole, by the contents
    at a moment when no operation was in progress. */
module StorageMachine {
  import opened Blocks
  import opened DiskLog

  const NPROC := 64

  /** A cached block; dirty cells are pinned until the commit installs them. */
  datatype Cell = Cell(data: Block, dirty: bool)

  /** What the last end_op, or recovery, is doing: copying entry k into the log,
      about to write the header, copying entry k home, about to clear the header. */
  datatype Phase = Idle | Logging(k: nat) | Heading | Installing(k: nat) | Clearing | Recovering(k: nat)

  /** ops[p] is -1 when process p runs no operation, and otherwise the number of
      blocks its operation has added to the list so far. passed holds the processes
      that are in log_write, behind its tests. */
  datatype State = State(disk: Disk, cache: map<nat, Cell>, lh: seq<nat>, ops: seq<int>, passed: set<nat>, phase: Phase)

  /** What bread returns for the block. */
  ghost function Latest(s: State, b: nat): (d: Block)
    requires b < |s.disk|
  {
    if b in s.cache then s.cache[b].data else s.disk[b]
  }

  ghost function Outstanding(ops: seq<int>): (n: nat) {
    if ops == [] then 0 else (if ops[0] >= 0 then 1 else 0) + Outstanding(ops[1..])
  }

  /** The blocks that the running operations may still add. */
  ghost function Budget(ops: seq<int>): (n: int) {
    if ops == [] then 0 else (if ops[0] >= 0 then MAXOPBLOCKS - ops[0] else 0) + Budget(ops[1..])
  }

  ghost function NoOps(): (r: seq<int>)
    ensures |r| == NPROC && forall p :: 0 <= p < NPROC ==> r[p] == -1
  {
    seq(NPROC, _ => -1)
  }

  // ---- the steps

  datatype Step =
    | Load(b: nat)
    | Recycle(b: nat)
    | Begin(p: nat)
    | Test(p: nat)
    | List(p: nat, b: nat, data: Block)
    | Stray(p: nat, b: nat, data: Block)   // by a read, or beyond MAXOPBLOCKS
    | End(p: nat)
    | Disk
    | Crash

  /** bwrite of the block: the disk and the cached copy now agree. */
  ghost function Wrote(s: State, b: nat, d: Block): (t: State)
    requires b < |s.disk|
  {
    s.(disk := s.disk[b := d], cache := s.cache[b := Cell(d, false)])
  }

  /** The list fits its array and the disk; beyond that the program's behaviour is
      not defined. */
  ghost predicate Running(l: Layout, s: State) {
    && |s.ops| == NPROC && |s.lh| <= LOGSIZE && l.Fits(s.disk) && l.start + 1 + |s.lh| <= |s.disk|
    && forall i :: 0 <= i < |s.lh| ==> s.lh[i] < |s.disk| && s.lh[i] < UINT_LIMIT
  }

  /** What a commit or a recovery does next: at most one disk write. */
  ghost predicate DiskStep(l: Layout, s: State, t: State)
    requires Running(l, s)
  {
    match s.phase
    case Idle => false
    case Logging(k) =>
      if k < |s.lh| then t == Wrote(s, l.start + 1 + k, Latest(s, s.lh[k])).(phase := Logging(k + 1))
      else t == s.(phase := if s.lh == [] then Idle else Heading)
    case Heading => t == Wrote(s, l.start, PutHead(Latest(s, l.start), s.lh)).(phase := Installing(0))
    case Installing(k) => CopyOrEnd(l, s, t, k, Installing(k + 1))
    case Recovering(k) => CopyOrEnd(l, s, t, k, Recovering(k + 1))
    case Clearing => t == Wrote(s, l.start, PutHead(Latest(s, l.start), s.lh)).(phase := Idle)
  }

  /** install_trans, shared by commit and recovery; then the list is emptied. */
  ghost predicate CopyOrEnd(l: Layout, s: State, t: State, k: nat, next: Phase)
    requires Running(l, s)
  {
    if k < |s.lh| then t == Wrote(s, s.lh[k], Latest(s, l.start + 1 + k)).(phase := next)
    else t == s.(lh := [], phase := Clearing)
  }

  /** The tests of log_write; otherwise it panics. */
  ghost predicate Passes(l: Layout, s: State) {
    |s.lh| < LOGSIZE && |s.lh| < l.size - 1 && Outstanding(s.ops) >= 1
  }

  ghost predicate IsHome(l: Layout, s: State, b: nat) {
    b < |s.disk| && b < UINT_LIMIT && l.Home(b)
  }

  /** log_write behind its tests: block b, changed to data, listed and pinned. */
  ghost function Listed(s: State, p: nat, b: nat, data: Block, ops: seq<int>): (t: State) {
    s.(cache := s.cache[b := Cell(data, true)], lh := if b in s.lh then s.lh else s.lh + [b],
       ops := ops, passed := s.passed - {p})
  }

  ghost predicate Next(l: Layout, s: State, step: Step, t: State)
    requires Running(l, s)
  {
    match step
    case Load(b) =>
      b < |s.disk| && b !in s.cache && t == s.(cache := s.cache[b := Cell(s.disk[b], false)])
    case Recycle(b) =>
      b in s.cache && !s.cache[b].dirty && t == s.(cache := s.cache - {b})
    case Begin(p) =>
      && p < NPROC && s.ops[p] < 0 && p !in s.passed && s.phase.Idle?
      && |s.lh| + (Outstanding(s.ops) + 1) * MAXOPBLOCKS <= LOGSIZE
      && t == s.(ops := s.ops[p := 0])
    case Test(p) =>
      && p < NPROC && p !in s.passed && Passes(l, s)
      && t == s.(passed := s.passed + {p})
    case List(p, b, data) =>
      && p < NPROC && p in s.passed && s.ops[p] >= 0 && IsHome(l, s, b)
      && (b in s.lh || s.ops[p] < MAXOPBLOCKS)
      && t == Listed(s, p, b, data, if b in s.lh then s.ops else s.ops[p := s.ops[p] + 1])
    case Stray(p, b, data) =>
      && p < NPROC && p in s.passed && IsHome(l, s, b)
      && (s.ops[p] < 0 || (b !in s.lh && s.ops[p] >= MAXOPBLOCKS))
      && t == Listed(s, p, b, data, s.ops)
    case End(p) =>
      && p < NPROC && s.ops[p] >= 0 && p !in s.passed
      && t == s.(ops := s.ops[p := -1],
                 phase := if Outstanding(s.ops[p := -1]) == 0 then Logging(0) else s.phase)
    case Disk =>
      DiskStep(l, s, t)
    case Crash =>
      && HeadOk(l, s.disk)
      && t == State(s.disk, map[], HeadBlocks(l, s.disk), NoOps(), {}, Recovering(0))
  }

  ghost predicate Init(l: Layout, s: State) {
    && l.Fits(s.disk) && HeadCount(l, s.disk) == 0
    && s == State(s.disk, map[], [], NoOps(), {}, Idle)
  }

  // ---- the specification: a durable copy and a current view

  datatype Spec = Spec(durable: map<nat, Block>, view: map<nat, Block>, active: set<nat>)

  datatype SpecStep =
    | Stutter
    | BeginOp(p: nat)
    | Update(p: nat, b: nat, data: Block)
    | StrayUpdate(b: nat, data: Block)
    | EndOp(p: nat)
    | Commit
    | Lose

  ghost predicate SpecNext(a: Spec, step: SpecStep, b: Spec) {
    match step
    case Stutter => b == a
    case BeginOp(p) => p !in a.active && b == a.(active := a.active + {p})
    case Update(p, x, data) => p in a.active && x in a.view && b == a.(view := a.view[x := data])
    case StrayUpdate(x, data) => a.active != {} && x in a.view && b == a.(view := a.view[x := data])
    case EndOp(p) => p in a.active && b == a.(active := a.active - {p})
    case Commit => a.active == {} && b == a.(durable := a.view)
    case Lose => b == a.(view := a.durable, active := {})
  }

  /** The specification step that a step of the machine amounts to. */
  ghost function Meaning(s: State, step: Step): (r: SpecStep) {
    match step
    case Load(_) => Stutter
    case Recycle(_) => Stutter
    case Begin(p) => BeginOp(p)
    case Test(_) => Stutter
    case List(p, b, data) => Update(p, b, data)
    case Stray(_, b, data) => StrayUpdate(b, data)
    case End(p) => EndOp(p)
    case Disk => if s.phase.Heading? then Commit else Stutter
    case Crash => Lose
  }

  ghost function HomeOf(l: Layout, d: Disk): (m: map<nat, Block>) {
    map b: nat | b < |d| && l.Home(b) :: d[b]
  }

  ghost function View(l: Layout, s: State): (m: map<nat, Block>) {
    map b: nat | b < |s.disk| && l.Home(b) :: Latest(s, b)
  }

  ghost function Active(ops: seq<int>): (r: set<nat>) {
    set p: nat | p < |ops| && ops[p] >= 0
  }

  ghost function Abs(l: Layout, s: State): (a: Spec)
    requires HeadOk(l, s.disk)
  {
    var durable := HomeOf(l, Recovered(l, s.disk));
    Spec(durable, if s.phase.Recovering? then durable else View(l, s), Active(s.ops))
  }

  // ---- the invariant

  ghost predicate Pinned(s: State, b: nat) {
    b in s.cache && s.cache[b].dirty
  }

  ghost predicate CacheOk(s: State) {
    forall b :: b in s.cache ==> b < |s.disk| && (!s.cache[b].dirty ==> s.cache[b].data == s.disk[b])
  }

  /** Log entry i holds the contents that recovery will give to block lh[i]. */
  ghost predicate Copied(l: Layout, s: State, i: nat)
    requires i < |s.lh| && l.start + 1 + i < |s.disk| && s.lh[i] < |s.disk|
  {
    s.disk[l.start + 1 + i] == Latest(s, s.lh[i])
  }

  /** Commit and recovery after the header write, with k blocks installed. */
  ghost predicate InstallOk(l: Layout, s: State, k: nat)
    requires l.Fits(s.disk) && Loggable(l, |s.disk|, s.lh)
  {
    && k <= |s.lh| && HeadCount(l, s.disk) == |s.lh| && HeadBlocks(l, s.disk) == s.lh
    && (forall i :: 0 <= i < k ==> !Pinned(s, s.lh[i]) && Copied(l, s, i))
  }

  ghost predicate AllPinned(s: State) {
    forall i :: 0 <= i < |s.lh| ==> Pinned(s, s.lh[i])
  }

  ghost predicate CopiedUpTo(l: Layout, s: State, k: nat)
    requires l.Fits(s.disk) && Loggable(l, |s.disk|, s.lh) && k <= |s.lh|
  {
    forall i :: 0 <= i < k ==> Copied(l, s, i)
  }

  ghost predicate NothingPinned(s: State) {
    forall b :: b in s.cache ==> !s.cache[b].dirty
  }

  ghost predicate PhaseOk(l: Layout, s: State)
    requires l.Fits(s.disk) && Loggable(l, |s.disk|, s.lh)
  {
    match s.phase
    case Idle => HeadCount(l, s.disk) == 0 && AllPinned(s)
    case Logging(k) => k <= |s.lh| && HeadCount(l, s.disk) == 0 && AllPinned(s) && CopiedUpTo(l, s, k)
    case Heading => 0 < |s.lh| && HeadCount(l, s.disk) == 0 && AllPinned(s) && CopiedUpTo(l, s, |s.lh|)
    case Installing(k) => InstallOk(l, s, k) && CopiedUpTo(l, s, |s.lh|)
    case Clearing => s.lh == [] && HeadOk(l, s.disk) && HomeOf(l, Recovered(l, s.disk)) == HomeOf(l, s.disk)
    case Recovering(k) => InstallOk(l, s, k) && NothingPinned(s)
  }

  ghost predicate OpsOk(s: State) {
    && |s.ops| == NPROC
    && (forall p :: 0 <= p < NPROC ==> -1 <= s.ops[p] <= MAXOPBLOCKS)
    && (!s.phase.Idle? ==> Outstanding(s.ops) == 0)
  }

  ghost predicate Inv(l: Layout, s: State) {
    && l.Fits(s.disk) && Loggable(l, |s.disk|, s.lh) && CacheOk(s)
    && (forall b :: Pinned(s, b) ==> b in s.lh)
    && OpsOk(s)
    && PhaseOk(l, s)
  }

  // ---- counting operations

  lemma {:induction false} OpsUpdate(ops: seq<int>, p: nat, v: int)
    requires p < |ops|
    ensures Budget(ops[p := v]) == Budget(ops) - (if ops[p] >= 0 then MAXOPBLOCKS - ops[p] else 0)
                                               + (if v >= 0 then MAXOPBLOCKS - v else 0)
    ensures Outstanding(ops[p := v]) == Outstanding(ops) - (if ops[p] >= 0 then 1 else 0) + (if v >= 0 then 1 else 0)
  {
    if p > 0 {
      OpsUpdate(ops[1..], p - 1, v);
      assert ops[p := v][1..] == ops[1..][p - 1 := v];
    } else {
      assert ops[p := v][1..] == ops[1..];
    }
  }

  lemma {:induction false} BudgetBound(ops: seq<int>)
    requires forall p :: 0 <= p < |ops| ==> ops[p] <= MAXOPBLOCKS
    ensures 0 <= Budget(ops)
    ensures (forall p :: 0 <= p < |ops| ==> ops[p] >= -1) ==> Budget(ops) <= MAXOPBLOCKS * Outstanding(ops)
    ensures Outstanding(ops) == 0 <==> forall p :: 0 <= p < |ops| ==> ops[p] < 0
  {
    if ops != [] {
      BudgetBound(ops[1..]);
      if Outstanding(ops) == 0 {
        forall p | 0 <= p < |ops|
          ensures ops[p] < 0
        {
          assert p > 0 ==> ops[p] == ops[1..][p - 1];
        }
      }
    }
  }

  /** A running operation's unused reservation is part of the budget. */
  lemma OwnBudget(ops: seq<int>, p: nat)
    requires p < |ops| && ops[p] >= 0
    requires forall q :: 0 <= q < |ops| ==> ops[q] <= MAXOPBLOCKS
    ensures MAXOPBLOCKS - ops[p] <= Budget(ops)
  {
    OpsUpdate(ops, p, -1);
    BudgetBound(ops[p := -1]);
  }

  // ---- every step keeps the invariant and refines the specification

  lemma InvHeadOk(l: Layout, s: State)
    requires Inv(l, s)
    ensures HeadOk(l, s.disk)
  {
    if s.phase.Idle? || s.phase.Logging? || s.phase.Heading? {
      assert HeadBlocks(l, s.disk) == [];
    }
  }

  ghost predicate Refines(l: Layout, s: State, step: Step, t: State) {
    && HeadOk(l, s.disk) && Inv(l, t) && HeadOk(l, t.disk)
    && SpecNext(Abs(l, s), Meaning(s, step), Abs(l, t))
  }

  /** Two states that differ only in which clean blocks are cached. */
  lemma SameContents(l: Layout, s: State, t: State)
    requires Inv(l, s) && t == s.(cache := t.cache) && CacheOk(t)
    requires forall b: nat :: b < |s.disk| ==> Latest(t, b) == Latest(s, b)
    requires forall b :: Pinned(t, b) <==> Pinned(s, b)
    ensures Inv(l, t) && View(l, t) == View(l, s)
  {
    forall i | 0 <= i < |s.lh|
      ensures Copied(l, t, i) <==> Copied(l, s, i)
    {
      assert Latest(t, s.lh[i]) == Latest(s, s.lh[i]);
    }
    if s.phase.Recovering? {
      forall b | b in t.cache
        ensures !t.cache[b].dirty
      {
        assert !Pinned(s, b);
      }
    }
  }

  /** Passing the tests changes nothing else. */
  lemma TestStep(l: Layout, s: State, step: Step, t: State)
    requires Inv(l, s) && Next(l, s, step, t) && step.Test?
    ensures Refines(l, s, step, t)
  {
    InvHeadOk(l, s);
    PassedOnly(l, s, t);
  }

  lemma PassedOnly(l: Layout, s: State, t: State)
    requires Inv(l, s) && t == s.(passed := t.passed)
    ensures Inv(l, t) && View(l, t) == View(l, s)
  {
    hide Recovered, HeadBlocks, HeadCount;
    assert forall b: nat :: b < |s.disk| ==> Latest(t, b) == Latest(s, b);
    assert forall b :: Pinned(t, b) <==> Pinned(s, b);
    assert forall i :: 0 <= i < |s.lh| ==> (Copied(l, t, i) <==> Copied(l, s, i));
  }

  lemma CacheStep(l: Layout, s: State, step: Step, t: State)
    requires Inv(l, s) && Next(l, s, step, t) && (step.Load? || step.Recycle?)
    ensures Refines(l, s, step, t)
  {
    InvHeadOk(l, s);
    SameContents(l, s, t);
  }

  lemma BeginStep(l: Layout, s: State, step: Step, t: State)
    requires Inv(l, s) && Next(l, s, step, t) && step.Begin?
    ensures Refines(l, s, step, t)
  {
    InvHeadOk(l, s);
    OpsUpdate(s.ops, step.p, 0);
    BudgetBound(s.ops);
    assert Active(t.ops) == Active(s.ops) + {step.p};
    assert View(l, t) == View(l, s);
  }

  lemma EndStep(l: Layout, s: State, step: Step, t: State)
    requires Inv(l, s) && Next(l, s, step, t) && step.End?
    ensures Refines(l, s, step, t)
  {
    hide Recovered, HeadBlocks, HeadCount, Word, Outstanding, Budget;
    InvHeadOk(l, s);
    OpsUpdate(s.ops, step.p, -1);
    BudgetBound(s.ops);
    assert s.phase.Idle?;
    assert forall b :: Pinned(t, b) <==> Pinned(s, b);
    assert OpsOk(t) && PhaseOk(l, t);
    assert Active(t.ops) == Active(s.ops) - {step.p};
    assert View(l, t) == View(l, s);
  }

  /** There is room for block b in the list and in the log area. */
  ghost predicate Room(l: Layout, s: State, b: nat) {
    b in s.lh || (|s.lh| < LOGSIZE && |s.lh| < l.size - 1)
  }

  lemma ListedList(l: Layout, s: State, p: nat, b: nat, data: Block, ops: seq<int>)
    requires Loggable(l, |s.disk|, s.lh) && AllPinned(s) && IsHome(l, s, b)
    requires forall x :: Pinned(s, x) ==> x in s.lh
    ensures var t := Listed(s, p, b, data, ops);
            && (Loggable(l, |t.disk|, t.lh) <==> Room(l, s, b))
            && AllPinned(t) && forall x :: Pinned(t, x) ==> x in t.lh
  {
    var t := Listed(s, p, b, data, ops);
    forall i | 0 <= i < |t.lh|
      ensures Pinned(t, t.lh[i])
    {
      assert i < |s.lh| ==> Pinned(s, s.lh[i]);
    }
    assert Distinct(t.lh);
  }

  lemma ListedInv(l: Layout, s: State, p: nat, b: nat, data: Block, ops: seq<int>)
    requires Inv(l, s) && s.phase.Idle? && IsHome(l, s, b) && Room(l, s, b)
    requires |ops| == NPROC && forall p :: 0 <= p < NPROC ==> -1 <= ops[p] <= MAXOPBLOCKS
    ensures Inv(l, Listed(s, p, b, data, ops))
    ensures b in View(l, s) && View(l, Listed(s, p, b, data, ops)) == View(l, s)[b := data]
  {
    hide HeadCount, Loggable, AllPinned;
    ListedList(l, s, p, b, data, ops);
    var t := Listed(s, p, b, data, ops);
    assert CacheOk(t) && OpsOk(t) && PhaseOk(l, t);
    assert View(l, t) == View(l, s)[b := data];
  }

  /** The block is listed in time: an operation is still outstanding, so that no
      commit runs, and there is still room for it. */
  ghost predicate InTime(l: Layout, s: State, step: Step) {
    step.List? || step.Stray? ==> Outstanding(s.ops) >= 1 && Room(l, s, step.b)
  }

  lemma ListStep(l: Layout, s: State, step: Step, t: State)
    requires Inv(l, s) && Next(l, s, step, t) && (step.List? || step.Stray?) && InTime(l, s, step)
    ensures Refines(l, s, step, t)
  {
    hide Recovered, HeadBlocks, Word, PhaseOk, CacheOk, View;
    InvHeadOk(l, s);
    BudgetBound(s.ops);
    ListedInv(l, s, step.p, step.b, step.data, t.ops);
    assert Active(t.ops) == Active(s.ops);
    assert Active(s.ops) != {} by {
      var p :| 0 <= p < NPROC && s.ops[p] >= 0;
      assert p in Active(s.ops);
    }
  }

  /** The listing half of log_write is a step of the specification, and keeps the
      invariant, exactly when it is in time, whatever its tests found before. */
  lemma ListExact(l: Layout, s: State, step: Step, t: State)
    requires Inv(l, s) && Next(l, s, step, t) && (step.List? || step.Stray?)
    ensures Refines(l, s, step, t) <==> InTime(l, s, step)
  {
    if InTime(l, s, step) {
      ListStep(l, s, step, t);
    } else {
      BudgetBound(s.ops);
      LateList(l, s, step, t);
    }
  }

  lemma LateList(l: Layout, s: State, step: Step, t: State)
    requires Inv(l, s) && Next(l, s, step, t) && (step.List? || step.Stray?) && !InTime(l, s, step)
    ensures !Refines(l, s, step, t)
  {
    hide Recovered, HeadBlocks, Word, PhaseOk, CacheOk, View, HeadCount;
    BudgetBound(s.ops);
    if Outstanding(s.ops) < 1 {
      assert step.Stray? && Active(s.ops) == {};
    } else {
      assert t.lh == s.lh + [step.b];
    }
  }

  lemma SameHomeOf(l: Layout, d: Disk, e: Disk)
    requires SameHome(l, d, e)
    ensures HomeOf(l, d) == HomeOf(l, e)
  {
  }

  /** Writing into the log area, header excluded, leaves an empty log empty. */
  lemma LogAreaWrite(l: Layout, d: Disk, b: nat, x: Block)
    requires l.Fits(d) && HeadCount(l, d) == 0 && l.start < b < l.start + l.size
    ensures HeadCount(l, d[b := x]) == 0
    ensures HeadOk(l, d) && HeadOk(l, d[b := x])
    ensures HomeOf(l, Recovered(l, d[b := x])) == HomeOf(l, Recovered(l, d))
  {
    RecoveredEmpty(l, d);
    RecoveredEmpty(l, d[b := x]);
    SameHomeOf(l, Recovered(l, d), Recovered(l, d[b := x]));
  }

  lemma LoggingInv(l: Layout, s: State, t: State)
    requires Inv(l, s) && s.phase.Logging? && s.phase.k < |s.lh| && DiskStep(l, s, t)
    requires HeadCount(l, t.disk) == 0
    ensures Inv(l, t) && View(l, t) == View(l, s)
  {
    hide Recovered, HeadBlocks, Word, HeadCount, PutHead;
    var k := s.phase.k;
    forall i | 0 <= i < |s.lh|
      ensures Pinned(t, s.lh[i])
      ensures i <= k ==> Copied(l, t, i)
    {
      assert Pinned(s, s.lh[i]) && l.Home(s.lh[i]);
      assert i < k ==> Copied(l, s, i);
    }
    assert forall b :: Pinned(t, b) ==> Pinned(s, b);
  }

  lemma LoggingStep(l: Layout, s: State, t: State)
    requires Inv(l, s) && s.phase.Logging? && s.phase.k < |s.lh| && DiskStep(l, s, t)
    ensures Refines(l, s, Step.Disk, t)
  {
    hide Recovered, HeadBlocks, Word, PutHead;
    LogAreaWrite(l, s.disk, l.start + 1 + s.phase.k, Latest(s, s.lh[s.phase.k]));
    LoggingInv(l, s, t);
  }

  /** The end of write_log's loop. */
  lemma LoopEnd(l: Layout, s: State, t: State)
    requires Inv(l, s) && s.phase.Logging? && s.phase.k >= |s.lh| && DiskStep(l, s, t)
    ensures Refines(l, s, Step.Disk, t)
  {
    hide Recovered, HeadBlocks, Word;
    InvHeadOk(l, s);
    assert forall i :: 0 <= i < |s.lh| ==> (Copied(l, t, i) <==> Copied(l, s, i));
    assert forall b :: Pinned(t, b) <==> Pinned(s, b);
    assert View(l, t) == View(l, s);
  }

  lemma Entries(l: Layout, s: State)
    requires l.Fits(s.disk) && Loggable(l, |s.disk|, s.lh) && CopiedUpTo(l, s, |s.lh|)
    ensures forall i :: 0 <= i < |s.lh| ==> s.disk[l.start + 1..l.start + 1 + |s.lh|][i] == Latest(s, s.lh[i])
  {
    forall i | 0 <= i < |s.lh|
      ensures s.disk[l.start + 1..l.start + 1 + |s.lh|][i] == Latest(s, s.lh[i])
    {
      assert Copied(l, s, i);
    }
  }

  /** With every entry copied, recovery would produce the current view. */
  lemma RecoversToView(l: Layout, s: State)
    requires l.Fits(s.disk) && Loggable(l, |s.disk|, s.lh) && CacheOk(s)
    requires forall b :: Pinned(s, b) ==> b in s.lh
    requires HeadCount(l, s.disk) == |s.lh| && HeadBlocks(l, s.disk) == s.lh && CopiedUpTo(l, s, |s.lh|)
    ensures HeadOk(l, s.disk) && HomeOf(l, Recovered(l, s.disk)) == View(l, s)
  {
    hide Recovered, Updated, Word, HeadBlocks;
    RecoveredEffect(l, s.disk);
    var data := LoggedData(l, s.disk);
    Entries(l, s);
    UpdatedEffect(s.disk, s.lh, data);
    forall b: nat | b < |s.disk| && l.Home(b)
      ensures Recovered(l, s.disk)[b] == Latest(s, b)
    {
      if b in s.lh {
        var i :| 0 <= i < |s.lh| && s.lh[i] == b;
        assert data[i] == Latest(s, s.lh[i]);
      } else {
        assert !Pinned(s, b);
      }
    }
  }

  lemma HeaderInv(l: Layout, s: State, t: State)
    requires Inv(l, s) && s.phase.Heading? && DiskStep(l, s, t)
    requires HeadCount(l, t.disk) == |s.lh| && HeadBlocks(l, t.disk) == s.lh
    ensures Inv(l, t) && View(l, t) == View(l, s) && Active(s.ops) == {}
  {
    hide Recovered, Word, PutHead;
    forall i | 0 <= i < |s.lh|
      ensures Copied(l, t, i)
    {
      assert Copied(l, s, i);
    }
    assert forall b :: Pinned(t, b) ==> Pinned(s, b);
    BudgetBound(s.ops);
  }

  /** The header write commits: the durable copy becomes the view. */
  lemma HeaderStep(l: Layout, s: State, t: State)
    requires Inv(l, s) && s.phase.Heading? && DiskStep(l, s, t)
    ensures Refines(l, s, Step.Disk, t)
  {
    hide Recovered, Word, PutHead, View;
    InvHeadOk(l, s);
    HeadRoundTrip(l, t.disk, Latest(s, l.start), s.lh);
    HeaderInv(l, s, t);
    RecoversToView(l, t);
  }

  /** Installing one logged block does not change what recovery yields. */
  lemma CopyKeepsDurable(l: Layout, d: Disk, k: nat)
    requires HeadOk(l, d) && k < HeadCount(l, d)
    ensures var e := d[HeadBlocks(l, d)[k] := d[l.start + 1 + k]];
            && HeadOk(l, e) && HeadCount(l, e) == HeadCount(l, d) && HeadBlocks(l, e) == HeadBlocks(l, d)
            && e[l.start + 1..l.start + 1 + HeadCount(l, d)] == LoggedData(l, d)
            && HomeOf(l, Recovered(l, e)) == HomeOf(l, Recovered(l, d))
  {
    var bl := HeadBlocks(l, d);
    var e := d[bl[k] := d[l.start + 1 + k]];
    assert e[l.start] == d[l.start];
    assert HeadBlocks(l, e) == bl;
    RecoveredAgree(l, d, e);
    SameHomeOf(l, Recovered(l, e), Recovered(l, d));
  }

  lemma CopyKeepsInv(l: Layout, s: State, k: nat, t: State, next: Phase)
    requires Inv(l, s) && (s.phase == Installing(k) || s.phase == Recovering(k)) && k < |s.lh|
    requires next == if s.phase.Installing? then Installing(k + 1) else Recovering(k + 1)
    requires t == Wrote(s, s.lh[k], s.disk[l.start + 1 + k]).(phase := next)
    requires HeadCount(l, t.disk) == |s.lh| && HeadBlocks(l, t.disk) == s.lh
    requires t.disk[l.start + 1..l.start + 1 + |s.lh|] == s.disk[l.start + 1..l.start + 1 + |s.lh|]
    ensures Inv(l, t)
    ensures s.phase.Installing? ==> View(l, t) == View(l, s)
  {
    hide Recovered, Word, PutHead;
    forall i | 0 <= i < |s.lh| && (i <= k || s.phase.Installing?)
      ensures Copied(l, t, i)
    {
      assert t.disk[l.start + 1 + i] == t.disk[l.start + 1..l.start + 1 + |s.lh|][i];
      assert s.disk[l.start + 1 + i] == s.disk[l.start + 1..l.start + 1 + |s.lh|][i];
      assert i != k ==> Copied(l, s, i) && s.lh[i] != s.lh[k];
    }
    forall i | 0 <= i <= k
      ensures !Pinned(t, s.lh[i])
    {
      assert i < k ==> !Pinned(s, s.lh[i]);
    }
    assert forall b :: Pinned(t, b) ==> Pinned(s, b);
    if s.phase.Installing? {
      assert Copied(l, s, k);
    }
  }

  lemma LogEntryClean(l: Layout, s: State, e: nat)
    requires Inv(l, s) && l.start <= e < l.start + l.size
    ensures Latest(s, e) == s.disk[e]
  {
    assert !Pinned(s, e);
  }

  /** Installing one more block changes neither the durable copy nor the view. */
  lemma CopyStep(l: Layout, s: State, k: nat, t: State, next: Phase)
    requires Inv(l, s) && (s.phase == Installing(k) || s.phase == Recovering(k)) && k < |s.lh|
    requires CopyOrEnd(l, s, t, k, next)
    requires next == if s.phase.Installing? then Installing(k + 1) else Recovering(k + 1)
    ensures Refines(l, s, Step.Disk, t)
  {
    hide Recovered, HeadBlocks, View, HomeOf, Distinct, Word, CacheOk, OpsOk;
    InvHeadOk(l, s);
    var e := l.start + 1 + k;
    assert Latest(s, e) == s.disk[e] by { LogEntryClean(l, s, e); }
    CopyKeepsDurable(l, s.disk, k);
    CopyKeepsInv(l, s, k, t, next);
  }

  lemma AllInstalled(l: Layout, s: State, k: nat)
    requires Inv(l, s) && (s.phase == Installing(k) || s.phase == Recovering(k)) && k >= |s.lh|
    ensures forall b :: !Pinned(s, b)
    ensures forall b: nat :: b < |s.disk| ==> Latest(s, b) == s.disk[b]
    ensures HeadOk(l, s.disk) && HomeOf(l, Recovered(l, s.disk)) == HomeOf(l, s.disk) == View(l, s)
  {
    assert forall b :: Pinned(s, b) ==> b in s.lh;
    forall b: nat | b < |s.disk|
      ensures Latest(s, b) == s.disk[b]
    {
      assert !Pinned(s, b);
    }
    RecoversToView(l, s);
  }

  lemma ClearedHead(l: Layout, d: Disk, b: Block)
    requires l.Fits(d)
    ensures var e := d[l.start := PutHead(b, [])];
            && HeadCount(l, e) == 0 && HeadOk(l, e) && HomeOf(l, e) == HomeOf(l, d) == HomeOf(l, Recovered(l, e))
  {
    var e := d[l.start := PutHead(b, [])];
    HeadRoundTrip(l, e, b, []);
    RecoveredEmpty(l, e);
    SameHomeOf(l, Recovered(l, e), e);
  }

  /** Everything is installed: the list is emptied. */
  lemma EmptyStep(l: Layout, s: State, k: nat, t: State, next: Phase)
    requires Inv(l, s) && (s.phase == Installing(k) || s.phase == Recovering(k)) && k >= |s.lh|
    requires CopyOrEnd(l, s, t, k, next)
    ensures Refines(l, s, Step.Disk, t)
  {
    hide Recovered, HeadBlocks, Word, PutHead;
    InvHeadOk(l, s);
    AllInstalled(l, s, k);
    assert forall b :: Pinned(t, b) ==> Pinned(s, b);
    assert View(l, t) == View(l, s);
  }

  /** Clearing the header once everything is installed. */
  lemma ClearStep(l: Layout, s: State, t: State)
    requires Inv(l, s) && s.phase.Clearing? && DiskStep(l, s, t)
    ensures Refines(l, s, Step.Disk, t)
  {
    hide Recovered, HeadBlocks, Word, PutHead;
    ClearedHead(l, s.disk, Latest(s, l.start));
    assert forall b :: !Pinned(s, b);
    assert forall b :: Pinned(t, b) ==> Pinned(s, b);
    forall b: nat | b < |s.disk|
      ensures Latest(s, b) == s.disk[b]
    {
      assert !Pinned(s, b);
    }
    assert View(l, s) == HomeOf(l, s.disk);
    assert View(l, t) == HomeOf(l, t.disk);
  }

  lemma CrashStep(l: Layout, s: State, t: State)
    requires Inv(l, s) && Next(l, s, Crash, t)
    ensures Refines(l, s, Crash, t)
  {
    InvHeadOk(l, s);
    BudgetBound(NoOps());
    assert Active(NoOps()) == {};
  }

  /** Every step of every process, of commit, of recovery, and every crash. */
  lemma StepRefines(l: Layout, s: State, step: Step, t: State)
    requires Inv(l, s) && Next(l, s, step, t) && InTime(l, s, step)
    ensures Refines(l, s, step, t)
  {
    match step
    case Load(_) => CacheStep(l, s, step, t);
    case Recycle(_) => CacheStep(l, s, step, t);
    case Begin(_) => BeginStep(l, s, step, t);
    case Test(_) => TestStep(l, s, step, t);
    case List(_, _, _) => ListStep(l, s, step, t);
    case Stray(_, _, _) => ListStep(l, s, step, t);
    case End(_) => EndStep(l, s, step, t);
    case Crash => CrashStep(l, s, t);
    case Disk => DiskRefines(l, s, t);
  }

  lemma DiskRefines(l: Layout, s: State, t: State)
    requires Inv(l, s) && DiskStep(l, s, t)
    ensures Refines(l, s, Step.Disk, t)
  {
    match s.phase {
      case Logging(k) =>
        if k < |s.lh| { LoggingStep(l, s, t); } else { LoopEnd(l, s, t); }
      case Heading => HeaderStep(l, s, t);
      case Installing(k) =>
        if k < |s.lh| { CopyStep(l, s, k, t, Installing(k + 1)); } else { EmptyStep(l, s, k, t, Installing(k + 1)); }
      case Recovering(k) =>
        if k < |s.lh| { CopyStep(l, s, k, t, Recovering(k + 1)); } else { EmptyStep(l, s, k, t, Recovering(k + 1)); }
      case Clearing => ClearStep(l, s, t);
      case Idle =>
    }
  }

  // ---- whole runs

  ghost predicate CanStep(l: Layout, s: State, step: Step, t: State) {
    Running(l, s) && Next(l, s, step, t)
  }

  /** tr is a run: tr[0] is a formatted disk, steps[i] leads from tr[i] to tr[i + 1]. */
  ghost predicate IsRun(l: Layout, tr: seq<State>, steps: seq<Step>) {
    && |tr| == |steps| + 1
    && Init(l, tr[0])
    && forall i :: 0 <= i < |steps| ==> CanStep(l, tr[i], steps[i], tr[i + 1])
  }

  /** Every block is listed in time. */
  ghost predicate Orderly(l: Layout, tr: seq<State>, steps: seq<Step>) {
    IsRun(l, tr, steps) && forall i :: 0 <= i < |steps| ==> InTime(l, tr[i], steps[i])
  }

  lemma InitInv(l: Layout, s: State)
    requires Init(l, s)
    ensures Inv(l, s) && HeadOk(l, s.disk)
    ensures Abs(l, s).view == Abs(l, s).durable && Abs(l, s).active == {}
  {
    hide Recovered, Word, HeadBlocks;
    BudgetBound(NoOps());
    assert Inv(l, s);
    InvHeadOk(l, s);
    RecoveredEmpty(l, s.disk);
    SameHomeOf(l, Recovered(l, s.disk), s.disk);
  }

  /** The invariant holds in every state of every orderly run. */
  lemma {:induction false} RunInv(l: Layout, tr: seq<State>, steps: seq<Step>, i: nat)
    requires Orderly(l, tr, steps) && i < |tr|
    ensures Inv(l, tr[i]) && HeadOk(l, tr[i].disk)
  {
    if i == 0 {
      InitInv(l, tr[0]);
    } else {
      RunInv(l, tr, steps, i - 1);
      assert CanStep(l, tr[i - 1], steps[i - 1], tr[i]) && InTime(l, tr[i - 1], steps[i - 1]);
      StepRefines(l, tr[i - 1], steps[i - 1], tr[i]);
    }
  }

  /** Whatever happens, what recovery would restore after i steps is exactly the
      home contents at some earlier moment j at which no operation was running:
      whole operations only, and never a mixture of two moments. */
  lemma {:induction false} DurableIsQuiescent(l: Layout, tr: seq<State>, steps: seq<Step>, i: nat) returns (j: nat)
    requires Orderly(l, tr, steps) && i < |tr|
    ensures j <= i && HeadOk(l, tr[j].disk) && HeadOk(l, tr[i].disk)
    ensures Abs(l, tr[j]).active == {}
    ensures HomeOf(l, Recovered(l, tr[i].disk)) == Abs(l, tr[j]).view
  {
    hide Recovered, HomeOf, View, HeadOk, Inv, Next, InTime;
    RunInv(l, tr, steps, i);
    if i == 0 {
      InitInv(l, tr[0]);
      j := 0;
    } else {
      RunInv(l, tr, steps, i - 1);
      assert CanStep(l, tr[i - 1], steps[i - 1], tr[i]) && InTime(l, tr[i - 1], steps[i - 1]);
      StepRefines(l, tr[i - 1], steps[i - 1], tr[i]);
      if Meaning(tr[i - 1], steps[i - 1]).Commit? {
        j := i - 1;
      } else {
        j := DurableIsQuiescent(l, tr, steps, i - 1);
      }
    }
  }

  /** After a crash and a completed recovery the processes see that contents. */
  lemma RecoveryRestores(l: Layout, tr: seq<State>, steps: seq<Step>, i: nat)
    requires Orderly(l, tr, steps) && i + 1 < |tr|
    requires tr[i].phase.Recovering? && !tr[i + 1].phase.Recovering?
    ensures HeadOk(l, tr[i].disk) && View(l, tr[i + 1]) == HomeOf(l, Recovered(l, tr[i].disk))
  {
    hide Recovered, HomeOf, View, HeadBlocks, HeadCount;
    RunInv(l, tr, steps, i);
    assert CanStep(l, tr[i], steps[i], tr[i + 1]) && InTime(l, tr[i], steps[i]);
    StepRefines(l, tr[i], steps[i], tr[i + 1]);
  }

  // ---- the reservation

  /** The log has room for what the running operations may still add. */
  ghost predicate Reserved(s: State) {
    |s.lh| + Budget(s.ops) <= LOGSIZE
  }

  /** What every run keeps, whether its blocks are listed in time or not. */
  ghost predicate Bookkeeping(s: State) {
    OpsOk(s) && Distinct(s.lh)
  }

  lemma DiskKeeps(l: Layout, s: State, t: State)
    requires Running(l, s) && DiskStep(l, s, t)
    ensures t.ops == s.ops && (t.lh == s.lh || t.lh == []) && !s.phase.Idle?
  {
  }

  lemma StepBooks(l: Layout, s: State, step: Step, t: State)
    requires Bookkeeping(s) && CanStep(l, s, step, t)
    ensures Bookkeeping(t)
  {
    hide Recovered, HeadBlocks, Word, PutHead, Latest, DiskStep, Outstanding, Budget;
    BudgetBound(s.ops);
    match step {
      case Begin(p) => OpsUpdate(s.ops, p, 0);
      case List(p, _, _) => OpsUpdate(s.ops, p, s.ops[p] + 1);
      case End(p) => OpsUpdate(s.ops, p, -1);
      case Crash => BudgetBound(NoOps());
      case Disk => DiskKeeps(l, s, t);
      case _ =>
    }
  }

  /** Every step keeps the reservation, except that an unreserved log_write
      keeps it exactly when its block is listed already or there is room left. */
  lemma StepReserves(l: Layout, s: State, step: Step, t: State)
    requires Bookkeeping(s) && CanStep(l, s, step, t)
    ensures |t.lh| + Budget(t.ops) <= (if Reserved(s) then LOGSIZE else |s.lh| + Budget(s.ops)) + Strays([step])
    ensures step.Stray? && Reserved(s) ==> (Reserved(t) <==> step.b in s.lh || |s.lh| + Budget(s.ops) < LOGSIZE)
  {
    hide Recovered, HeadBlocks, Word, PutHead, Latest, DiskStep, Outstanding, Budget;
    assert [step][..0] == [] && Strays([]) == 0;
    BudgetBound(s.ops);
    match step {
      case Begin(p) => OpsUpdate(s.ops, p, 0);
      case List(p, _, _) => OpsUpdate(s.ops, p, s.ops[p] + 1);
      case End(p) => OpsUpdate(s.ops, p, -1);
      case Crash => BudgetBound(NoOps());
      case Disk => DiskKeeps(l, s, t);
      case _ =>
    }
  }

  /** How many unreserved log writes a run holds. */
  ghost function Strays(steps: seq<Step>): (n: nat) {
    if steps == [] then 0 else Strays(steps[..|steps| - 1]) + if steps[|steps| - 1].Stray? then 1 else 0
  }

  ghost predicate NoneStray(steps: seq<Step>) {
    forall i :: 0 <= i < |steps| ==> !steps[i].Stray?
  }

  lemma {:induction false} NoStrays(steps: seq<Step>)
    ensures Strays(steps) == 0 <==> NoneStray(steps)
  {
    if steps != [] {
      NoStrays(steps[..|steps| - 1]);
    }
  }

  lemma {:induction false} RunReserves(l: Layout, tr: seq<State>, steps: seq<Step>, i: nat)
    requires IsRun(l, tr, steps) && i < |tr|
    ensures Bookkeeping(tr[i]) && |tr[i].lh| + Budget(tr[i].ops) <= LOGSIZE + Strays(steps[..i])
  {
    hide CanStep, OpsOk, Distinct;
    if i == 0 {
      BooksStart(l, tr[0]);
    } else {
      RunReserves(l, tr, steps, i - 1);
      assert CanStep(l, tr[i - 1], steps[i - 1], tr[i]);
      assert steps[..i] == steps[..i - 1] + [steps[i - 1]];
      StraysMore(steps[..i - 1], steps[i - 1]);
      StepBooks(l, tr[i - 1], steps[i - 1], tr[i]);
      StepReserves(l, tr[i - 1], steps[i - 1], tr[i]);
    }
  }

  lemma BooksStart(l: Layout, s: State)
    requires Init(l, s)
    ensures Bookkeeping(s) && |s.lh| + Budget(s.ops) == 0 && Strays([]) == 0
  {
    BudgetBound(NoOps());
  }

  lemma StraysMore(steps: seq<Step>, step: Step)
    ensures Strays(steps + [step]) == Strays(steps) + Strays([step])
    ensures Strays([step]) == if step.Stray? then 1 else 0
  {
    assert (steps + [step])[..|steps|] == steps;
    assert [step][..0] == [];
  }

  /** The group commit protocol, in every run: a commit runs only while no operation
      does, the list has no duplicates, and the log has room for what the running
      operations may still add, but for one block for each log_write that no
      operation had reserved. */
  lemma GroupCommit(l: Layout, tr: seq<State>, steps: seq<Step>, i: nat)
    requires IsRun(l, tr, steps) && i < |tr|
    ensures !tr[i].phase.Idle? ==> forall p :: 0 <= p < |tr[i].ops| ==> tr[i].ops[p] < 0
    ensures Distinct(tr[i].lh)
    ensures |tr[i].lh| + Budget(tr[i].ops) <= LOGSIZE + Strays(steps[..i])
    ensures NoneStray(steps[..i]) ==>
              forall p :: 0 <= p < |tr[i].ops| && 0 <= tr[i].ops[p] < MAXOPBLOCKS ==> |tr[i].lh| < LOGSIZE
  {
    RunReserves(l, tr, steps, i);
    NoStrays(steps[..i]);
    var s := tr[i];
    BudgetBound(s.ops);
    forall p | 0 <= p < |s.ops| && 0 <= s.ops[p] < MAXOPBLOCKS
      ensures MAXOPBLOCKS - s.ops[p] <= Budget(s.ops)
    {
      OwnBudget(s.ops, p);
    }
  }

  /** The reservation, not log_write's tests, makes a run orderly: without
      unreserved log writes, and with a log area longer than LOGSIZE, every run is. */
  lemma OrderlyRun(l: Layout, tr: seq<State>, steps: seq<Step>)
    requires IsRun(l, tr, steps) && NoneStray(steps) && l.size > LOGSIZE
    ensures Orderly(l, tr, steps)
  {
    forall i | 0 <= i < |steps|
      ensures InTime(l, tr[i], steps[i])
    {
      assert CanStep(l, tr[i], steps[i], tr[i + 1]);
      GroupCommit(l, tr, steps, i);
      RunReserves(l, tr, steps, i);
      BudgetBound(tr[i].ops);
    }
  }

  // ---- the size the log area must have

  /** In no run without unreserved log writes does log_write's test of the area
      stop an operation that has not used up its MAXOPBLOCKS. */
  ghost predicate NeverTooBig(l: Layout, d: Disk) {
    forall tr: seq<State>, steps: seq<Step> ::
      IsRun(l, tr, steps) && tr[0].disk == d && NoneStray(steps) ==> Fits(l, tr[|steps|])
  }

  /** ... and in no orderly run. */
  ghost predicate NeverTooBigAtAll(l: Layout, d: Disk) {
    forall tr: seq<State>, steps: seq<Step> :: Orderly(l, tr, steps) && tr[0].disk == d ==> Fits(l, tr[|steps|])
  }

  /** In no run without unreserved log writes does the list outgrow the area. */
  ghost predicate NeverOverruns(l: Layout, d: Disk) {
    forall tr: seq<State>, steps: seq<Step> ::
      IsRun(l, tr, steps) && tr[0].disk == d && NoneStray(steps) ==> |tr[|steps|].lh| < l.size
  }

  ghost predicate Fits(l: Layout, s: State) {
    forall p :: 0 <= p < |s.ops| && 0 <= s.ops[p] < MAXOPBLOCKS ==> |s.lh| < l.size - 1
  }

  // three operations that take turns

  /** What operation p has used of the first k blocks. */
  ghost function Used(k: nat, p: nat): (n: int) {
    if p >= 3 then -1 else (k + 2 - p) / 3
  }

  ghost predicate UsedUp(s: State, d: Disk, bl: seq<nat>, k: nat)
    requires k <= |bl|
  {
    && s.disk == d && s.lh == bl[..k] && s.phase == Idle && s.passed == {} && |s.ops| == NPROC
    && forall p :: 0 <= p < NPROC ==> s.ops[p] == Used(k, p)
  }

  ghost predicate HomeBlocks(l: Layout, d: Disk, bl: seq<nat>) {
    && |bl| == LOGSIZE && Distinct(bl)
    && forall i :: 0 <= i < |bl| ==> bl[i] < |d| && bl[i] < UINT_LIMIT && l.Home(bl[i])
  }

  /** A run goes on with any step that its last state allows. */
  lemma Longer(l: Layout, tr: seq<State>, steps: seq<Step>, step: Step, t: State)
    requires IsRun(l, tr, steps) && CanStep(l, tr[|steps|], step, t)
    ensures IsRun(l, tr + [t], steps + [step]) && |tr + [t]| == |steps + [step]| + 1
    ensures NoneStray(steps + [step]) <==> NoneStray(steps) && !step.Stray?
    ensures Orderly(l, tr, steps) && InTime(l, tr[|steps|], step) ==> Orderly(l, tr + [t], steps + [step])
  {
    hide CanStep, Init, InTime;
    var tr1, steps1 := tr + [t], steps + [step];
    forall i | 0 <= i < |steps1|
      ensures CanStep(l, tr1[i], steps1[i], tr1[i + 1])
    {
      assert i < |steps| ==> CanStep(l, tr[i], steps[i], tr[i + 1]);
    }
    if Orderly(l, tr, steps) && InTime(l, tr[|steps|], step) {
      forall i | 0 <= i < |steps1|
        ensures InTime(l, tr1[i], steps1[i])
      {
        assert i < |steps| ==> InTime(l, tr[i], steps[i]);
      }
    }
    if NoneStray(steps1) {
      assert steps1[|steps|] == step;
      assert forall i :: 0 <= i < |steps| ==> steps1[i] == steps[i];
    }
  }

  /** Steps of operations that log blocks of bl only, without a crash. */
  ghost predicate Plain(steps: seq<Step>, bl: seq<nat>) {
    forall i :: 0 <= i < |steps| ==> PlainStep(steps[i], bl)
  }

  ghost predicate PlainStep(step: Step, bl: seq<nat>) {
    !step.Stray? && !step.Crash? && (step.List? ==> step.b in bl)
  }

  lemma PlainMore(steps: seq<Step>, step: Step, bl: seq<nat>)
    requires Plain(steps, bl) && PlainStep(step, bl)
    ensures Plain(steps + [step], bl)
  {
  }

  lemma PlainNone(steps: seq<Step>, bl: seq<nat>)
    requires Plain(steps, bl)
    ensures NoneStray(steps)
  {
    assert forall i :: 0 <= i < |steps| ==> PlainStep(steps[i], bl);
  }

  lemma BeginAfter(l: Layout, tr: seq<State>, steps: seq<Step>, p: nat) returns (tr1: seq<State>, steps1: seq<Step>)
    requires Orderly(l, tr, steps) && p < NPROC
    requires var s := tr[|steps|];
             && Running(l, s) && s.lh == [] && s.ops[p] < 0 && p !in s.passed && s.phase.Idle?
             && (Outstanding(s.ops) + 1) * MAXOPBLOCKS <= LOGSIZE
    ensures Orderly(l, tr1, steps1) && |tr1| == |steps1| + 1 && steps1 == steps + [Begin(p)] && tr1[0] == tr[0]
    ensures var s := tr[|steps|]; tr1[|steps1|] == s.(ops := s.ops[p := 0])
    ensures Outstanding(tr1[|steps1|].ops) == Outstanding(tr[|steps|].ops) + 1
  {
    hide Outstanding, Init;
    var s := tr[|steps|];
    var t := s.(ops := s.ops[p := 0]);
    OpsUpdate(s.ops, p, 0);
    assert CanStep(l, s, Begin(p), t) && InTime(l, s, Begin(p));
    hide CanStep, Orderly;
    Longer(l, tr, steps, Begin(p), t);
    tr1, steps1 := tr + [t], steps + [Begin(p)];
  }

  /** Three operations can begin together. */
  lemma ThreeBegin(l: Layout, d: Disk, bl: seq<nat>) returns (tr: seq<State>, steps: seq<Step>)
    requires l.Fits(d) && HeadCount(l, d) == 0 && HomeBlocks(l, d, bl)
    ensures Orderly(l, tr, steps) && |tr| == |steps| + 1 && tr[0].disk == d && UsedUp(tr[|steps|], d, bl, 0) && Plain(steps, bl)
  {
    hide Outstanding, Budget, HeadCount, CanStep;
    tr, steps := [State(d, map[], [], NoOps(), {}, Idle)], [];
    BudgetBound(NoOps());
    assert Orderly(l, tr, steps);
    hide Orderly;
    tr, steps := BeginAfter(l, tr, steps, 0);
    tr, steps := BeginAfter(l, tr, steps, 1);
    tr, steps := BeginAfter(l, tr, steps, 2);
  }

  /** Operation p passes the tests of log_write. */
  lemma TestAfter(l: Layout, tr: seq<State>, steps: seq<Step>, p: nat) returns (tr1: seq<State>, steps1: seq<Step>)
    requires IsRun(l, tr, steps) && p < NPROC
    requires var s := tr[|steps|]; Running(l, s) && p !in s.passed && Passes(l, s)
    ensures IsRun(l, tr1, steps1) && |tr1| == |steps1| + 1 && tr1[0] == tr[0]
    ensures Orderly(l, tr, steps) ==> Orderly(l, tr1, steps1)
    ensures tr1[|steps1|] == tr[|steps|].(passed := tr[|steps|].passed + {p})
    ensures steps1 == steps + [Test(p)]
  {
    hide Init, Orderly;
    var s := tr[|steps|];
    var t := s.(passed := s.passed + {p});
    assert CanStep(l, s, Test(p), t) && InTime(l, s, Test(p));
    hide CanStep;
    Longer(l, tr, steps, Test(p), t);
    tr1, steps1 := tr + [t], steps + [Test(p)];
  }

  /** ... and lists block b, which is new. */
  lemma ListAfter(l: Layout, tr: seq<State>, steps: seq<Step>, p: nat, b: nat, data: Block) returns (tr1: seq<State>, steps1: seq<Step>)
    requires IsRun(l, tr, steps) && p < NPROC
    requires var s := tr[|steps|];
             Running(l, s) && p in s.passed && 0 <= s.ops[p] < MAXOPBLOCKS && IsHome(l, s, b) && b !in s.lh
    ensures IsRun(l, tr1, steps1) && |tr1| == |steps1| + 1 && tr1[0] == tr[0] && |tr[|steps|].ops| == NPROC
    ensures Orderly(l, tr, steps) && InTime(l, tr[|steps|], List(p, b, data)) ==> Orderly(l, tr1, steps1)
    ensures var s := tr[|steps|]; tr1[|steps1|] == Listed(s, p, b, data, s.ops[p := s.ops[p] + 1])
    ensures steps1 == steps + [List(p, b, data)]
  {
    hide Init, Orderly;
    var s := tr[|steps|];
    var t := Listed(s, p, b, data, s.ops[p := s.ops[p] + 1]);
    assert CanStep(l, s, List(p, b, data), t);
    hide CanStep;
    Longer(l, tr, steps, List(p, b, data), t);
    tr1, steps1 := tr + [t], steps + [List(p, b, data)];
  }

  lemma UsedRunning(l: Layout, d: Disk, bl: seq<nat>, k: nat, s: State)
    requires l.Fits(d) && HomeBlocks(l, d, bl) && k <= LOGSIZE && k < l.size && UsedUp(s, d, bl, k)
    ensures Running(l, s) && Outstanding(s.ops) >= 1 && (forall p :: 0 <= p < NPROC ==> -1 <= s.ops[p] <= MAXOPBLOCKS)
  {
    forall i | 0 <= i < |s.lh|
      ensures s.lh[i] < |s.disk| && s.lh[i] < UINT_LIMIT
    {
      assert s.lh[i] == bl[i];
    }
    assert s.ops[0] == Used(k, 0) && forall p :: 0 <= p < NPROC ==> s.ops[p] == Used(k, p);
    BudgetBound(s.ops);
  }

  /** The next block of bl, logged by the operation whose turn it is. */
  lemma FillOne(l: Layout, d: Disk, bl: seq<nat>, k: nat, tr: seq<State>, steps: seq<Step>) returns (tr1: seq<State>, steps1: seq<Step>)
    requires l.Fits(d) && HomeBlocks(l, d, bl) && k < LOGSIZE && k < l.size - 1
    requires Orderly(l, tr, steps) && |tr| == |steps| + 1 && UsedUp(tr[|steps|], d, bl, k)
    ensures Orderly(l, tr1, steps1) && |tr1| == |steps1| + 1 && tr1[0] == tr[0] && (Plain(steps, bl) ==> Plain(steps1, bl))
    ensures UsedUp(tr1[|steps1|], d, bl, k + 1)
  {
    var s := tr[|steps|];
    UsedRunning(l, d, bl, k, s);
    var p, b := k % 3, bl[k];
    assert b !in s.lh && s.ops[p] == Used(k, p) && 0 <= Used(k, p) < MAXOPBLOCKS;
    assert bl[..k + 1] == bl[..k] + [b];
    UsedNext(k);
    hide Orderly, Outstanding, Used, HomeBlocks;
    tr1, steps1 := TestAfter(l, tr, steps, p);
    assert InTime(l, tr1[|steps1|], List(p, b, d[b]));
    tr1, steps1 := ListAfter(l, tr1, steps1, p, b, d[b]);
    var t := tr1[|steps1|];
    assert t.passed == {};
    if Plain(steps, bl) {
      PlainMore(steps, Test(p), bl);
      PlainMore(steps + [Test(p)], List(p, b, d[b]), bl);
    }
  }

  lemma UsedNext(k: nat)
    ensures forall q: nat :: Used(k + 1, q) == Used(k, q) + if q == k % 3 then 1 else 0
  {
  }

  /** ... and together list any k <= LOGSIZE blocks that the log area holds. */
  lemma {:induction false} Fill(l: Layout, d: Disk, bl: seq<nat>, k: nat) returns (tr: seq<State>, steps: seq<Step>)
    requires l.Fits(d) && HeadCount(l, d) == 0 && HomeBlocks(l, d, bl)
    requires k <= LOGSIZE && k < l.size
    ensures Orderly(l, tr, steps) && |tr| == |steps| + 1 && tr[0].disk == d && UsedUp(tr[|steps|], d, bl, k) && Plain(steps, bl)
  {
    hide UsedUp, Orderly, HomeBlocks, HeadCount, Plain;
    if k == 0 {
      tr, steps := ThreeBegin(l, d, bl);
    } else {
      tr, steps := Fill(l, d, bl, k - 1);
      tr, steps := FillOne(l, d, bl, k - 1, tr, steps);
    }
  }

  // ---- what goes wrong

  /** A process outside any operation lists a block, having passed the tests. */
  lemma StrayAfter(l: Layout, tr: seq<State>, steps: seq<Step>, p: nat, b: nat, data: Block) returns (tr1: seq<State>, steps1: seq<Step>)
    requires IsRun(l, tr, steps) && p < NPROC
    requires var s := tr[|steps|]; Running(l, s) && p in s.passed && s.ops[p] < 0 && IsHome(l, s, b)
    ensures IsRun(l, tr1, steps1) && |tr1| == |steps1| + 1 && tr1[0] == tr[0] && steps1 == steps + [Stray(p, b, data)]
    ensures Orderly(l, tr, steps) && InTime(l, tr[|steps|], Stray(p, b, data)) ==> Orderly(l, tr1, steps1)
    ensures tr1[|steps1|] == Listed(tr[|steps|], p, b, data, tr[|steps|].ops)
  {
    hide Init, Orderly;
    var s := tr[|steps|];
    var t := Listed(s, p, b, data, s.ops);
    assert CanStep(l, s, Stray(p, b, data), t);
    hide CanStep;
    Longer(l, tr, steps, Stray(p, b, data), t);
    tr1, steps1 := tr + [t], steps + [Stray(p, b, data)];
  }

  lemma OneStray(steps: seq<Step>, bl: seq<nat>, p: nat, b: nat, data: Block)
    requires Plain(steps, bl)
    ensures Strays(steps + [Test(p)] + [Stray(p, b, data)]) == 1
  {
    PlainNone(steps, bl);
    NoStrays(steps);
    StraysMore(steps, Test(p));
    StraysMore(steps + [Test(p)], Stray(p, b, data));
  }

  /** One unreserved log_write beside three operations that have not started to
      log: the reservation is broken. */
  lemma StrayBreaksBound(l: Layout, d: Disk, bl: seq<nat>) returns (tr: seq<State>, steps: seq<Step>)
    requires l.Fits(d) && HeadCount(l, d) == 0 && HomeBlocks(l, d, bl) && l.size > 1
    ensures Orderly(l, tr, steps) && tr[0].disk == d && Strays(steps) == 1
    ensures |tr[|steps|].lh| + Budget(tr[|steps|].ops) == LOGSIZE + 1
  {
    tr, steps := ThreeBegin(l, d, bl);
    UsedRunning(l, d, bl, 0, tr[|steps|]);
    ThreeFresh(tr[|steps|].ops);
    OneStray(steps, bl, 3, bl[0], d[bl[0]]);
    hide Orderly, Budget, Outstanding, Plain;
    tr, steps := TestAfter(l, tr, steps, 3);
    tr, steps := StrayAfter(l, tr, steps, 3, bl[0], d[bl[0]]);
  }

  /** Three operations that have logged nothing. */
  lemma ThreeFresh(ops: seq<int>)
    requires |ops| == NPROC && forall p :: 0 <= p < NPROC ==> ops[p] == Used(0, p)
    ensures Budget(ops) == LOGSIZE && Outstanding(ops) == 3
  {
    var a := ops[2 := -1];
    var b := a[1 := -1];
    var c := b[0 := -1];
    assert forall p :: 0 <= p < NPROC ==> ops[p] == if p < 3 then 0 else -1;
    assert forall p :: 0 <= p < NPROC ==> c[p] < 0 && c[p] <= MAXOPBLOCKS && c[p] >= -1;
    hide Budget, Outstanding, Used;
    BudgetBound(c);
    OpsUpdate(ops, 2, -1);
    OpsUpdate(a, 1, -1);
    OpsUpdate(b, 0, -1);
  }

  /** Nobody is behind the tests of log_write, and nobody gets there. */
  ghost predicate Refused(l: Layout, s: State) {
    s.passed == {} && forall p, t :: !CanStep(l, s, Test(p), t)
  }

  /** An unreserved log_write takes the last place: an operation that has used
      nine of its ten blocks finds that log_write accepts none. */
  lemma StrayStopsOperation(l: Layout, d: Disk, bl: seq<nat>) returns (tr: seq<State>, steps: seq<Step>)
    requires l.Fits(d) && HeadCount(l, d) == 0 && HomeBlocks(l, d, bl) && l.size > LOGSIZE
    ensures Orderly(l, tr, steps) && tr[0].disk == d && Strays(steps) == 1
    ensures var s := tr[|steps|]; |s.lh| == LOGSIZE && |s.ops| == NPROC && s.ops[2] == MAXOPBLOCKS - 1
    ensures Refused(l, tr[|steps|])
  {
    var k := LOGSIZE - 1;
    tr, steps := Fill(l, d, bl, k);
    var s := tr[|steps|];
    UsedRunning(l, d, bl, k, s);
    assert bl[k] !in s.lh && s.ops[2] == Used(k, 2) == MAXOPBLOCKS - 1 && s.ops[3] == Used(k, 3);
    OneStray(steps, bl, 3, bl[k], d[bl[k]]);
    hide Orderly, UsedUp, HomeBlocks, Plain, Outstanding;
    tr, steps := TestAfter(l, tr, steps, 3);
    tr, steps := StrayAfter(l, tr, steps, 3, bl[k], d[bl[k]]);
  }

  /** The tests come before the search for an already listed block. So three
      operations that use their full MAXOPBLOCKS reach a state in which log_write
      accepts no block at all, not even one that is already listed. */
  lemma FullLogRefusesAll(l: Layout, d: Disk, bl: seq<nat>) returns (tr: seq<State>, steps: seq<Step>)
    requires l.Fits(d) && HeadCount(l, d) == 0 && HomeBlocks(l, d, bl) && l.size > LOGSIZE
    ensures Orderly(l, tr, steps) && tr[0].disk == d
    ensures tr[|steps|].lh == bl && Outstanding(tr[|steps|].ops) > 0 && Refused(l, tr[|steps|])
  {
    tr, steps := Fill(l, d, bl, LOGSIZE);
    assert bl[..LOGSIZE] == bl;
    UsedRunning(l, d, bl, LOGSIZE, tr[|steps|]);
  }

  /** Two operations pass the tests when there is room for one more block, and both
      list one: the list has outgrown the log area. */
  lemma Overrun(l: Layout, d: Disk, bl: seq<nat>, x: Block) returns (tr: seq<State>, steps: seq<Step>)
    requires l.Fits(d) && HeadCount(l, d) == 0 && HomeBlocks(l, d, bl) && 2 <= l.size <= LOGSIZE
    requires l.start + l.size < |d|
    ensures IsRun(l, tr, steps) && |tr| == |steps| + 1 && tr[0].disk == d && Plain(steps, bl)
    ensures var s := tr[|steps|];
            && s.disk == d && s.lh == bl[..l.size] && s.phase == Idle && s.passed == {} && |s.ops| == NPROC
            && (forall p :: 0 <= p < NPROC ==> (s.ops[p] >= 0 <==> p < 3))
            && bl[l.size - 1] in s.cache && s.cache[bl[l.size - 1]] == Cell(x, true)
  {
    var k := l.size - 2;
    tr, steps := Fill(l, d, bl, k);
    var s := tr[|steps|];
    UsedRunning(l, d, bl, k, s);
    var b, c := bl[k], bl[k + 1];
    assert 0 <= s.ops[0] && 0 <= s.ops[1] < MAXOPBLOCKS && 0 <= s.ops[2] < MAXOPBLOCKS by {
      assert s.ops[0] == Used(k, 0) && s.ops[1] == Used(k, 1) && s.ops[2] == Used(k, 2);
    }
    assert bl[..k + 1] == bl[..k] + [b] && bl[..k + 2] == bl[..k + 1] + [c] && b !in s.lh && c !in bl[..k + 1];
    PlainMore(steps, Test(1), bl);
    PlainMore(steps + [Test(1)], Test(2), bl);
    PlainMore(steps + [Test(1)] + [Test(2)], List(1, b, d[b]), bl);
    PlainMore(steps + [Test(1)] + [Test(2)] + [List(1, b, d[b])], List(2, c, x), bl);
    hide Orderly, Outstanding, Used, Plain, Budget;
    assert IsRun(l, tr, steps) by { OrderlyIs(l, tr, steps); }
    hide IsRun;
    tr, steps := TestAfter(l, tr, steps, 1);
    tr, steps := TestAfter(l, tr, steps, 2);
    tr, steps := ListAfter(l, tr, steps, 1, b, d[b]);
    assert tr[|steps|].lh == bl[..k + 1];
    tr, steps := ListAfter(l, tr, steps, 2, c, x);
    assert tr[|steps|].passed == {};
  }

  lemma OrderlyIs(l: Layout, tr: seq<State>, steps: seq<Step>)
    requires Orderly(l, tr, steps)
    ensures IsRun(l, tr, steps) && |tr| == |steps| + 1
  {
  }

  lemma EndAfter(l: Layout, tr: seq<State>, steps: seq<Step>, p: nat) returns (tr1: seq<State>, steps1: seq<Step>)
    requires IsRun(l, tr, steps) && |tr| == |steps| + 1 && p < NPROC
    requires var s := tr[|steps|]; Running(l, s) && s.ops[p] >= 0 && p !in s.passed
    ensures IsRun(l, tr1, steps1) && |tr1| == |steps1| + 1 && tr1[0] == tr[0] && steps1 == steps + [End(p)] && |tr[|steps|].ops| == NPROC
    ensures var s := tr[|steps|];
            tr1[|steps1|] == s.(ops := s.ops[p := -1], phase := if Outstanding(s.ops[p := -1]) == 0 then Logging(0) else s.phase)
  {
    hide Init;
    var s := tr[|steps|];
    var t := s.(ops := s.ops[p := -1], phase := if Outstanding(s.ops[p := -1]) == 0 then Logging(0) else s.phase);
    assert CanStep(l, s, End(p), t);
    hide CanStep;
    Longer(l, tr, steps, End(p), t);
    tr1, steps1 := tr + [t], steps + [End(p)];
  }

  lemma DiskAfter(l: Layout, tr: seq<State>, steps: seq<Step>, t: State) returns (tr1: seq<State>, steps1: seq<Step>)
    requires IsRun(l, tr, steps) && |tr| == |steps| + 1
    requires Running(l, tr[|steps|]) && DiskStep(l, tr[|steps|], t)
    ensures IsRun(l, tr1, steps1) && |tr1| == |steps1| + 1 && tr1[0] == tr[0] && steps1 == steps + [Step.Disk] && tr1[|steps1|] == t
  {
    hide Init, DiskStep;
    assert CanStep(l, tr[|steps|], Step.Disk, t);
    hide CanStep;
    Longer(l, tr, steps, Step.Disk, t);
    tr1, steps1 := tr + [t], steps + [Step.Disk];
  }

  /** The three operations end; the last one starts the commit. */
  lemma ThreeEnd(l: Layout, tr: seq<State>, steps: seq<Step>, bl: seq<nat>) returns (tr1: seq<State>, steps1: seq<Step>)
    requires IsRun(l, tr, steps) && |tr| == |steps| + 1 && Plain(steps, bl)
    requires var s := tr[|steps|];
             Running(l, s) && s.passed == {} && s.phase == Idle && forall p :: 0 <= p < NPROC ==> (s.ops[p] >= 0 <==> p < 3)
    ensures IsRun(l, tr1, steps1) && |tr1| == |steps1| + 1 && tr1[0] == tr[0] && Plain(steps1, bl)
    ensures var s := tr[|steps|];
            && tr1[|steps1|] == s.(ops := tr1[|steps1|].ops, phase := Logging(0)) && Running(l, tr1[|steps1|])
  {
    var o0 := tr[|steps|].ops;
    var o1 := o0[0 := -1];
    var o2 := o1[1 := -1];
    var o3 := o2[2 := -1];
    assert Outstanding(o1) > 0 && Outstanding(o2) > 0 && Outstanding(o3) == 0 by {
      OutstandingIff(o1, 2);
      OutstandingIff(o2, 2);
      OutstandingIff(o3, 0);
    }
    PlainMore(steps, End(0), bl);
    PlainMore(steps + [End(0)], End(1), bl);
    PlainMore(steps + [End(0)] + [End(1)], End(2), bl);
    hide IsRun, Outstanding, Plain;
    tr1, steps1 := EndAfter(l, tr, steps, 0);
    tr1, steps1 := EndAfter(l, tr1, steps1, 1);
    tr1, steps1 := EndAfter(l, tr1, steps1, 2);
  }

  lemma {:induction false} OutstandingIff(ops: seq<int>, p: nat)
    requires p < |ops|
    ensures ops[p] >= 0 ==> Outstanding(ops) > 0
    ensures (forall q :: 0 <= q < |ops| ==> ops[q] < 0) ==> Outstanding(ops) == 0
    decreases |ops|
  {
    if |ops| > 1 {
      OutstandingIff(ops[1..], if p > 0 then p - 1 else 0);
    }
  }

  /** write_log's loop has copied the first k listed blocks of s. */
  ghost predicate CopiedOut(l: Layout, s: State, t: State, k: nat)
    requires k <= |s.lh|
  {
    && t == s.(disk := t.disk, cache := t.cache, phase := Logging(k)) && |t.disk| == |s.disk|
    && (forall b: nat :: b < |s.disk| && !(l.start + 1 <= b <= l.start + k) ==>
          t.disk[b] == s.disk[b] && (b in t.cache <==> b in s.cache) && (b in s.cache ==> t.cache[b] == s.cache[b]))
    && (forall i :: 0 <= i < k && l.start + 1 + i < |s.disk| && s.lh[i] < |s.disk| ==> t.disk[l.start + 1 + i] == Latest(s, s.lh[i]))
  }

  lemma CopyOutOne(l: Layout, s: State, t: State, u: State, k: nat)
    requires Running(l, s) && 0 < k <= |s.lh| && forall i :: 0 <= i < |s.lh| ==> !(l.start + 1 <= s.lh[i] <= l.start + |s.lh|)
    requires CopiedOut(l, s, t, k - 1) && Running(l, t)
    requires u == Wrote(t, l.start + 1 + (k - 1), Latest(t, t.lh[k - 1])).(phase := Logging(k))
    ensures DiskStep(l, t, u) && CopiedOut(l, s, u, k) && Running(l, u)
  {
    assert Latest(t, t.lh[k - 1]) == Latest(s, s.lh[k - 1]);
  }

  /** It goes on as long as the list does, past the end of the log area. */
  lemma {:induction false} CopyOut(l: Layout, tr: seq<State>, steps: seq<Step>, bl: seq<nat>, k: nat) returns (tr1: seq<State>, steps1: seq<Step>)
    requires IsRun(l, tr, steps) && |tr| == |steps| + 1 && Plain(steps, bl)
    requires var s := tr[|steps|];
             && Running(l, s) && s.phase == Logging(0) && k <= |s.lh|
             && forall i :: 0 <= i < |s.lh| ==> !(l.start + 1 <= s.lh[i] <= l.start + |s.lh|)
    ensures IsRun(l, tr1, steps1) && |tr1| == |steps1| + 1 && tr1[0] == tr[0] && Plain(steps1, bl)
    ensures CopiedOut(l, tr[|steps|], tr1[|steps1|], k) && Running(l, tr1[|steps1|])
  {
    hide IsRun, Plain;
    if k == 0 {
      tr1, steps1 := tr, steps;
    } else {
      tr1, steps1 := CopyOut(l, tr, steps, bl, k - 1);
      var t := tr1[|steps1|];
      var u := Wrote(t, l.start + 1 + (k - 1), Latest(t, t.lh[k - 1])).(phase := Logging(k));
      CopyOutOne(l, tr[|steps|], t, u, k);
      hide CopiedOut, DiskStep;
      PlainMore(steps1, Step.Disk, bl);
      tr1, steps1 := DiskAfter(l, tr1, steps1, u);
    }
  }

  /** With a log area of at most LOGSIZE blocks, as mkfs makes it, a run without any
      crash in which a commit writes the block behind the log area, although no
      operation has touched it. */
  lemma OverrunOverwrites(l: Layout, d: Disk, bl: seq<nat>, x: Block) returns (tr: seq<State>, steps: seq<Step>)
    requires l.Fits(d) && HeadCount(l, d) == 0 && HomeBlocks(l, d, bl) && 2 <= l.size <= LOGSIZE
    requires l.start + l.size < |d| && l.start + l.size !in bl
    ensures IsRun(l, tr, steps) && |tr| == |steps| + 1 && tr[0].disk == d && Plain(steps, bl)
    ensures |tr[|steps|].disk| == |d| && tr[|steps|].disk[l.start + l.size] == x
  {
    hide IsRun, Plain, Outstanding;
    tr, steps := Overrun(l, d, bl, x);
    var s := tr[|steps|];
    forall i | 0 <= i < |s.lh|
      ensures s.lh[i] < |s.disk| && s.lh[i] < UINT_LIMIT && !(l.start + 1 <= s.lh[i] <= l.start + |s.lh|)
    {
      assert s.lh[i] == bl[i] && bl[i] in bl && l.Home(bl[i]);
    }
    tr, steps := ThreeEnd(l, tr, steps, bl);
    tr, steps := CopyOut(l, tr, steps, bl, l.size);
    assert s.lh[l.size - 1] == bl[l.size - 1];
  }

  /** log_write's test of the area never stops an operation that keeps to MAXOPBLOCKS
      if and only if the area has more than LOGSIZE blocks, and with unreserved log
      writes it takes one block more. Nor does the test keep the list
      within the area: that too holds if and only if the area has more than LOGSIZE
      blocks, or is too small for any log_write at all. */
  lemma LogSizeExact(l: Layout, d: Disk, bl: seq<nat>)
    requires l.Fits(d) && HeadCount(l, d) == 0 && HomeBlocks(l, d, bl) && l.start + l.size < |d|
    ensures NeverTooBig(l, d) <==> l.size > LOGSIZE
    ensures NeverTooBigAtAll(l, d) <==> l.size > LOGSIZE + 1
    ensures NeverOverruns(l, d) <==> l.size > LOGSIZE || l.size < 2
  {
    if l.size > LOGSIZE {
      LargeArea(l, d);
      if l.size == LOGSIZE + 1 {
        var tr, steps := StrayStopsOperation(l, d, bl);
        assert !Fits(l, tr[|steps|]);
      }
    } else {
      SmallArea(l, d, bl);
    }
  }

  lemma LargeArea(l: Layout, d: Disk)
    requires l.size > LOGSIZE
    ensures NeverTooBig(l, d) && NeverOverruns(l, d) && (l.size > LOGSIZE + 1 ==> NeverTooBigAtAll(l, d))
  {
    forall tr: seq<State>, steps: seq<Step> | IsRun(l, tr, steps) && tr[0].disk == d && NoneStray(steps)
      ensures Fits(l, tr[|steps|]) && |tr[|steps|].lh| < l.size
    {
      assert steps[..|steps|] == steps;
      GroupCommit(l, tr, steps, |steps|);
      OrderlyRun(l, tr, steps);
      RunInv(l, tr, steps, |steps|);
    }
    forall tr: seq<State>, steps: seq<Step> | Orderly(l, tr, steps) && tr[0].disk == d && l.size > LOGSIZE + 1
      ensures Fits(l, tr[|steps|])
    {
      RunInv(l, tr, steps, |steps|);
    }
  }

  lemma SmallArea(l: Layout, d: Disk, bl: seq<nat>)
    requires l.Fits(d) && HeadCount(l, d) == 0 && HomeBlocks(l, d, bl) && l.start + l.size < |d| && l.size <= LOGSIZE
    ensures !NeverTooBig(l, d) && !NeverTooBigAtAll(l, d) && (NeverOverruns(l, d) <==> l.size < 2)
  {
    hide HeadCount;
    var tr, steps := Fill(l, d, bl, l.size - 1);
    PlainNone(steps, bl);
    var s := tr[|steps|];
    assert s.ops[2] == Used(l.size - 1, 2) && |s.lh| == l.size - 1;
    assert !Fits(l, s);
    if l.size < 2 {
      TinyArea(l, d);
    } else {
      var tr1, steps1 := Overrun(l, d, bl, d[0]);
      PlainNone(steps1, bl);
      assert |tr1[|steps1|].lh| == l.size;
    }
  }

  lemma TinyArea(l: Layout, d: Disk)
    requires l.size < 2
    ensures NeverOverruns(l, d)
  {
    forall tr: seq<State>, steps: seq<Step> | IsRun(l, tr, steps) && tr[0].disk == d && NoneStray(steps)
      ensures |tr[|steps|].lh| < l.size
    {
      forall i | 0 <= i < |steps|
        ensures InTime(l, tr[i], steps[i])
      {
        NobodyPasses(l, tr, steps, i);
        assert CanStep(l, tr[i], steps[i], tr[i + 1]);
      }
      RunInv(l, tr, steps, |steps|);
    }
  }

  lemma {:induction false} NobodyPasses(l: Layout, tr: seq<State>, steps: seq<Step>, i: nat)
    requires IsRun(l, tr, steps) && l.size < 2 && i < |tr|
    ensures tr[i].passed == {}
  {
    if i > 0 {
      NobodyPasses(l, tr, steps, i - 1);
      assert CanStep(l, tr[i - 1], steps[i - 1], tr[i]);
    }
  }

  // ---- a read that lists its block too late

  /** The read has passed the tests while an operation ran; the operation ends, its
      commit copies its block and leaves the loop, and then the read lists its own. */
  ghost predicate LateState(l: Layout, s: State, d: Disk, b0: nat, b1: nat, x: Block) {
    && Running(l, s) && |s.disk| == |d| && s.lh == [b0, b1] && s.phase == Heading
    && s.disk[l.start + 2] == d[l.start + 2] && l.start + 2 !in s.cache
    && b1 in s.cache && s.cache[b1] == Cell(x, true)
  }

  lemma OneBegun(l: Layout, d: Disk) returns (tr: seq<State>, steps: seq<Step>)
    requires l.Fits(d) && HeadCount(l, d) == 0
    ensures IsRun(l, tr, steps) && |tr| == |steps| + 1 && tr[0].disk == d && steps == [Begin(0)]
    ensures tr[1] == State(d, map[], [], NoOps()[0 := 0], {}, Idle)
  {
    tr, steps := [State(d, map[], [], NoOps(), {}, Idle)], [];
    OutstandingIff(NoOps(), 0);
    assert Orderly(l, tr, steps);
    hide Orderly, Outstanding, NoOps;
    tr, steps := BeginAfter(l, tr, steps, 0);
    OrderlyIs(l, tr, steps);
  }

  lemma TwoTests(l: Layout, d: Disk) returns (tr: seq<State>, steps: seq<Step>)
    requires l.Fits(d) && l.size > 2 && HeadCount(l, d) == 0
    ensures IsRun(l, tr, steps) && |tr| == |steps| + 1 && tr[0].disk == d && steps == [Begin(0), Test(1), Test(0)]
    ensures tr[3] == State(d, map[], [], NoOps()[0 := 0], {0, 1}, Idle)
  {
    OutstandingIff(NoOps()[0 := 0], 0);
    hide IsRun, Outstanding, HeadCount, NoOps;
    tr, steps := OneBegun(l, d);
    tr, steps := TestAfter(l, tr, steps, 1);
    tr, steps := TestAfter(l, tr, steps, 0);
  }

  lemma OneListed(d: Disk, b: nat)
    requires b < |d|
    ensures var o := NoOps()[0 := 0];
            Listed(State(d, map[], [], o, {0, 1}, Idle), 0, b, d[b], o[0 := o[0] + 1])
            == State(d, map[b := Cell(d[b], true)], [b], NoOps()[0 := 1], {1}, Idle)
    ensures NoOps()[0 := 1][0 := -1] == NoOps() && Outstanding(NoOps()) == 0
  {
    OutstandingIff(NoOps(), 0);
  }

  /** Up to the end of the operation. */
  lemma EarlyTest(l: Layout, d: Disk, b: nat) returns (tr: seq<State>, steps: seq<Step>)
    requires l.Fits(d) && l.size > 2 && HeadCount(l, d) == 0 && b < |d| && b < UINT_LIMIT && l.Home(b)
    ensures IsRun(l, tr, steps) && |tr| == |steps| + 1 && tr[0].disk == d
    ensures tr[|steps|] == State(d, map[b := Cell(d[b], true)], [b], NoOps(), {1}, Logging(0))
    ensures steps == [Begin(0), Test(1), Test(0), List(0, b, d[b]), End(0)]
  {
    hide IsRun, Outstanding, HeadCount, NoOps, Listed;
    OneListed(d, b);
    tr, steps := TwoTests(l, d);
    tr, steps := ListAfter(l, tr, steps, 0, b, d[b]);
    tr, steps := EndAfter(l, tr, steps, 0);
  }

  lemma LateRead(l: Layout, d: Disk, b0: nat, b1: nat, x: Block) returns (tr: seq<State>, steps: seq<Step>)
    requires l.Fits(d) && l.size > 2 && HeadCount(l, d) == 0 && b0 != b1
    requires b0 < |d| && b1 < |d| && b0 < UINT_LIMIT && b1 < UINT_LIMIT && l.Home(b0) && l.Home(b1)
    ensures IsRun(l, tr, steps) && |tr| == |steps| + 1 && tr[0].disk == d && LateState(l, tr[|steps|], d, b0, b1, x)
    ensures steps == [Begin(0), Test(1), Test(0), List(0, b0, d[b0]), End(0), Step.Disk, Step.Disk, Stray(1, b1, x)]
  {
    hide IsRun, HeadCount;
    tr, steps := EarlyTest(l, d, b0);
    var s := tr[|steps|];
    var t := Wrote(s, l.start + 1, d[b0]).(phase := Logging(1));
    tr, steps := DiskAfter(l, tr, steps, t);
    tr, steps := DiskAfter(l, tr, steps, t.(phase := Heading));
    tr, steps := StrayAfter(l, tr, steps, 1, b1, x);
    assert tr[|steps|].lh == [b0, b1];
  }

  /** The header then names a log entry that was never written, and install_trans
      copies what happens to lie there over the block, without any crash: what was
      stored in it is gone from the disk and from the cache. */
  lemma LateReadLoses(l: Layout, d: Disk, b0: nat, b1: nat, x: Block) returns (tr: seq<State>, steps: seq<Step>)
    requires l.Fits(d) && l.size > 2 && HeadCount(l, d) == 0 && b0 != b1
    requires b0 < |d| && b1 < |d| && b0 < UINT_LIMIT && b1 < UINT_LIMIT && l.Home(b0) && l.Home(b1)
    ensures IsRun(l, tr, steps) && tr[0].disk == d && Stray(1, b1, x) in steps && Crash !in steps
    ensures var s := tr[|steps|]; s.phase == Idle && s.lh == [] && |s.disk| == |d| && Latest(s, b1) == s.disk[b1] == d[l.start + 2]
  {
    hide IsRun, HeadCount;
    tr, steps := LateRead(l, d, b0, b1, x);
    var h := tr[|steps|];
    var a := Wrote(h, l.start, PutHead(Latest(h, l.start), h.lh)).(phase := Installing(0));
    tr, steps := DiskAfter(l, tr, steps, a);
    var b := Wrote(a, b0, Latest(a, l.start + 1)).(phase := Installing(1));
    tr, steps := DiskAfter(l, tr, steps, b);
    var c := Wrote(b, b1, Latest(b, l.start + 2)).(phase := Installing(2));
    tr, steps := DiskAfter(l, tr, steps, c);
    var e := c.(lh := [], phase := Clearing);
    tr, steps := DiskAfter(l, tr, steps, e);
    var f := Wrote(e, l.start, PutHead(Latest(e, l.start), e.lh)).(phase := Idle);
    tr, steps := DiskAfter(l, tr, steps, f);
    assert Latest(b, l.start + 2) == d[l.start + 2];
  }
}
