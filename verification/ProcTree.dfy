/** Every interleaving of fork, exit, wait, kill, sleep and wakeup by any number
    of processes. The parts of proc.c that run under ptable.lock are single
    steps, computed by the functions that the scans of the table are proved
    against; fork's writes outside the lock are steps of their own. */
module ProcTree {

  import opened ProcTable

  /** Where a process is: in fork between allocproc and the parent assignment,
      after it, inside wait, or elsewhere. */
  datatype Pc = User | Forking(child: nat) | Parented(child: nat) | InWait

  /** reaped lists the pids that wait has returned; failed holds those given out
      by allocproc to forks that failed afterwards. */
  datatype State = State(t: Table, init: nat, nextpid: nat, pcs: seq<Pc>, reaped: seq<nat>, failed: set<nat>)

  datatype Action =
    | Schedule(p: nat)
    | Yield(p: nat)
    | SleepOn(p: nat, id: nat)
    | WakeOther(p: nat, id: nat)  // by a process, or by an interrupt whatever p does
    | ForkBegin(p: nat, child: nat)
    | ForkFail(p: nat)
    | ForkParent(p: nat)
    | ForkEnd(p: nat)
    | DoExit(p: nat)
    | DoWait(p: nat, r: WaitResult)
    | DoKill(p: nat, pid: nat, victim: nat)

  predicate Alive(q: Proc) {
    q.state.Sleeping? || q.state.Runnable? || q.state.Running?
  }

  predicate Live(q: Proc) {
    q.state != Unused
  }

  /** userinit's table: one process, not yet running. */
  predicate Init(s: State) {
    && s.init < |s.t| == |s.pcs| && s.nextpid == 2 && s.reaped == [] && s.failed == {}
    && s.t[s.init] == Proc(Runnable, 1, NONE, NoChan, false)
    && (forall i :: 0 <= i < |s.t| && i != s.init ==> s.t[i] == Proc(Unused, 0, NONE, NoChan, false))
    && (forall i :: 0 <= i < |s.t| ==> s.pcs[i] == User)
  }

  predicate Enabled(s: State, a: Action) {
    && |s.pcs| == |s.t| && a.p < |s.t|
    && match a
       case Schedule(p) => s.t[p].state == Runnable
       case Yield(p) => s.t[p].state == Running
       case SleepOn(p, _) => s.t[p].state == Running && s.pcs[p] != InWait
       case WakeOther(_, _) => true
       case ForkBegin(p, i) =>
         && s.t[p].state == Running && s.pcs[p] == User && i < |s.t| && s.t[i].state == Unused
         && forall k :: 0 <= k < i ==> s.t[k].state != Unused
       case ForkFail(p) => s.t[p].state == Running && s.pcs[p].Forking? && s.pcs[p].child < |s.t|
       case ForkParent(p) => s.t[p].state == Running && s.pcs[p].Forking? && s.pcs[p].child < |s.t|
       case ForkEnd(p) => s.t[p].state == Running && s.pcs[p].Parented? && s.pcs[p].child < |s.t|
       case DoExit(p) => s.t[p].state == Running && s.pcs[p] == User && p != s.init
       case DoWait(p, r) =>
         && s.t[p].state == Running && (s.pcs[p] == User || s.pcs[p] == InWait)
         && (match r
             case Reap(k) => k < |s.t| && IsChild(s.t, p, k) && s.t[k].state == Zombie && !HasZombie(s.t, p, k)
             case NoKids => !HasZombie(s.t, p, |s.t|) && (!HasChild(s.t, p, |s.t|) || s.t[p].killed)
             case Sleep => !HasZombie(s.t, p, |s.t|) && HasChild(s.t, p, |s.t|) && !s.t[p].killed)
       case DoKill(p, pid, i) =>
         && s.t[p].state == Running && i < |s.t| && s.t[i].pid == pid
         && forall k :: 0 <= k < i ==> s.t[k].pid != pid
  }

  function Set(s: State, i: nat, q: Proc): (r: State)
    requires i < |s.t|
  {
    s.(t := s.t[i := q])
  }

  function At(s: State, p: nat, pc: Pc): (r: State)
    requires p < |s.pcs|
  {
    s.(pcs := s.pcs[p := pc])
  }

  function Apply(s: State, a: Action): (r: State)
    requires Enabled(s, a)
  {
    match a
    case Schedule(p) => Set(s, p, s.t[p].(state := Running))
    case Yield(p) => Set(s, p, s.t[p].(state := Runnable))
    case SleepOn(p, id) => Set(s, p, s.t[p].(state := Sleeping, chan := OnOther(id)))
    case WakeOther(p, id) => s.(t := Woken(s.t, OnOther(id)))
    case ForkBegin(p, i) =>
      At(Set(s, i, s.t[i].(state := Embryo, pid := s.nextpid)), p, Forking(i)).(nextpid := s.nextpid + 1)
    case ForkFail(p) =>
      var i := s.pcs[p].child;
      At(Set(s, i, s.t[i].(state := Unused)), p, User).(failed := s.failed + {s.t[i].pid})
    case ForkParent(p) =>
      var i := s.pcs[p].child;
      At(Set(s, i, s.t[i].(parent := p)), p, Parented(i))
    case ForkEnd(p) =>
      var i := s.pcs[p].child;
      At(Set(s, i, s.t[i].(state := Runnable)), p, User)
    case DoExit(p) => s.(t := Exited(s.t, p, s.init))
    case DoWait(p, r) =>
      (match r
       case Reap(k) => At(Set(s, k, Reaped(s.t[k])), p, User).(reaped := s.reaped + [s.t[k].pid])
       case NoKids => At(s, p, User)
       case Sleep => At(Set(s, p, s.t[p].(state := Sleeping, chan := OnProc(p))), p, InWait))
    case DoKill(p, _, i) => Set(s, i, Killed(s.t[i]))
  }

  // ---- the invariant

  ghost predicate Shape(s: State) {
    && s.init < |s.t| == |s.pcs| && s.nextpid >= 2
    && Alive(s.t[s.init]) && s.t[s.init].pid == 1 && s.t[s.init].parent == NONE
  }

  ghost predicate PidOk(s: State, i: nat)
    requires i < |s.t|
  {
    && s.t[i].pid < s.nextpid
    && (Live(s.t[i]) ==> s.t[i].pid > 0 && s.t[i].pid !in s.failed && s.t[i].pid !in s.reaped)
    && (!Live(s.t[i]) && s.t[i].pid > 0 ==> s.t[i].pid in s.failed)
  }

  ghost predicate PidsApart(s: State, i: nat, j: nat)
    requires i < |s.t| && j < |s.t|
  {
    i != j && Live(s.t[i]) && Live(s.t[j]) ==> s.t[i].pid != s.t[j].pid
  }

  /** A started process other than init has a living parent with a smaller pid;
      an embryo has none yet, or the process that is forking it. */
  ghost predicate ParentOk(s: State, i: nat)
    requires i < |s.t| && |s.pcs| == |s.t|
  {
    var q := s.t[i];
    if q.state == Unused then q.parent == NONE
    else if q.state == Embryo then
      q.parent == NONE || (0 <= q.parent < |s.t| && s.pcs[q.parent] == Parented(i))
    else i != s.init ==> 0 <= q.parent < |s.t| && Alive(s.t[q.parent]) && s.t[q.parent].pid < q.pid
  }

  ghost predicate PcOk(s: State, p: nat)
    requires p < |s.t| && |s.pcs| == |s.t|
  {
    && (s.pcs[p] != User ==> Alive(s.t[p]))
    && (s.pcs[p].Forking? ==>
          s.pcs[p].child < |s.t| && s.t[s.pcs[p].child].state == Embryo && s.t[s.pcs[p].child].parent == NONE
          && s.t[p].pid < s.t[s.pcs[p].child].pid)
    && (s.pcs[p].Parented? ==>
          s.pcs[p].child < |s.t| && s.t[s.pcs[p].child].state == Embryo && s.t[s.pcs[p].child].parent == p
          && s.t[p].pid < s.t[s.pcs[p].child].pid)
  }

  predicate ChildOf(pc: Pc, i: nat) {
    (pc.Forking? || pc.Parented?) && pc.child == i
  }

  ghost predicate ForksApart(s: State, p: nat, q: nat, i: nat)
    requires p < |s.pcs| && q < |s.pcs|
  {
    ChildOf(s.pcs[p], i) && ChildOf(s.pcs[q], i) ==> p == q
  }

  /** A process asleep on a process sleeps in wait, on itself, and has no zombie
      child. */
  ghost predicate SleepOk(s: State, i: nat)
    requires i < |s.t| && |s.pcs| == |s.t|
  {
    s.t[i].state == Sleeping && s.t[i].chan.OnProc? ==>
      s.t[i].chan.slot == i && s.pcs[i] == InWait && !HasZombie(s.t, i, |s.t|)
  }

  ghost predicate Inv(s: State) {
    && Shape(s)
    && (forall i :: 0 <= i < |s.t| ==> PidOk(s, i) && ParentOk(s, i) && PcOk(s, i) && SleepOk(s, i))
    && (forall i, j :: 0 <= i < |s.t| && 0 <= j < |s.t| ==> PidsApart(s, i, j))
    && (forall p, q, i :: 0 <= p < |s.t| && 0 <= q < |s.t| && 0 <= i < |s.t| ==> ForksApart(s, p, q, i))
    && LogOk(s)
  }

  /** Pids in the logs have been given out, and none was reaped twice. */
  ghost predicate LogOk(s: State) {
    && (forall n :: n in s.reaped ==> 0 < n < s.nextpid && n !in s.failed)
    && (forall n :: n in s.failed ==> 0 < n < s.nextpid)
    && (forall a, b :: 0 <= a < b < |s.reaped| ==> s.reaped[a] != s.reaped[b])
  }

  lemma InvParts(s: State, i: nat)
    requires Inv(s) && i < |s.t|
    ensures PidOk(s, i) && ParentOk(s, i) && PcOk(s, i) && SleepOk(s, i)
  {
  }

  // ---- steps that only change who is ready to run

  ghost predicate QuietAt(s: State, r: State, i: nat)
    requires i < |s.t| == |s.pcs| && i < |r.t| == |r.pcs|
  {
    && r.t[i].pid == s.t[i].pid && r.t[i].parent == s.t[i].parent
    && (Alive(r.t[i]) <==> Alive(s.t[i])) && (!Alive(s.t[i]) ==> r.t[i].state == s.t[i].state)
    && (r.pcs[i] == s.pcs[i] || (Alive(s.t[i]) && (s.pcs[i].User? || s.pcs[i].InWait?) && (r.pcs[i].User? || r.pcs[i].InWait?)))
  }

  ghost predicate Quiet(s: State, r: State) {
    && |s.t| == |s.pcs| == |r.t| == |r.pcs|
    && r.init == s.init && r.nextpid == s.nextpid && r.reaped == s.reaped && r.failed == s.failed
    && forall i :: 0 <= i < |s.t| ==> QuietAt(s, r, i)
  }

  lemma QuietInv(s: State, r: State)
    requires Inv(s) && Quiet(s, r)
    requires forall i :: 0 <= i < |r.t| ==> SleepOk(r, i)
    ensures Inv(r)
  {
    hide SleepOk, LogOk;
    assert QuietAt(s, r, s.init);
    forall i | 0 <= i < |r.t|
      ensures PidOk(r, i) && ParentOk(r, i) && PcOk(r, i)
    {
      QuietSlot(s, r, i);
    }
    forall i, j | 0 <= i < |r.t| && 0 <= j < |r.t|
      ensures PidsApart(r, i, j)
    {
      assert PidsApart(s, i, j) && QuietAt(s, r, i) && QuietAt(s, r, j);
    }
    forall p, q, i | 0 <= p < |r.t| && 0 <= q < |r.t| && 0 <= i < |r.t|
      ensures ForksApart(r, p, q, i)
    {
      assert ForksApart(s, p, q, i) && QuietAt(s, r, p) && QuietAt(s, r, q);
    }
    assert LogOk(r) by { LogSame(s, r); }
  }

  lemma LogSame(s: State, r: State)
    requires LogOk(s) && r.nextpid == s.nextpid && r.reaped == s.reaped && r.failed == s.failed
    ensures LogOk(r)
  {
  }

  lemma QuietSlot(s: State, r: State, i: nat)
    requires Inv(s) && Quiet(s, r) && i < |r.t|
    ensures PidOk(r, i) && ParentOk(r, i) && PcOk(r, i)
  {
    hide SleepOk, LogOk, PidsApart, ForksApart;
    InvParts(s, i);
    assert QuietAt(s, r, i);
    if 0 <= s.t[i].parent < |s.t| {
      assert QuietAt(s, r, s.t[i].parent);
    }
    if s.pcs[i].Forking? || s.pcs[i].Parented? {
      assert QuietAt(s, r, s.pcs[i].child);
    }
  }

  /** Whoever has a zombie child afterwards had it before, if no zombie is new
      or handed on. */
  lemma NoNewZombie(s: State, r: State, p: nat)
    requires |r.t| == |s.t|
    requires forall i :: 0 <= i < |s.t| && r.t[i].state.Zombie? ==> s.t[i].state.Zombie? && r.t[i].parent == s.t[i].parent
    ensures HasZombie(r.t, p, |r.t|) ==> HasZombie(s.t, p, |s.t|)
  {
    if HasZombie(r.t, p, |r.t|) {
      var z :| 0 <= z < |r.t| && IsChild(r.t, p, z) && r.t[z].state == Zombie;
      assert IsChild(s.t, p, z);
    }
  }

  predicate Simple(a: Action) {
    a.Schedule? || a.Yield? || a.SleepOn? || a.WakeOther? || a.DoKill? || (a.DoWait? && !a.r.Reap?)
  }

  lemma SimpleInv(s: State, a: Action)
    requires Inv(s) && Enabled(s, a) && Simple(a)
    ensures Inv(Apply(s, a))
  {
    hide PidOk, ParentOk, PcOk, PidsApart, ForksApart, LogOk;
    var r := Apply(s, a);
    SimpleQuiet(s, a);
    forall i | 0 <= i < |r.t|
      ensures SleepOk(r, i)
    {
      SimpleSleep(s, a, i);
    }
    QuietInv(s, r);
  }

  lemma SimpleQuiet(s: State, a: Action)
    requires Inv(s) && Enabled(s, a) && Simple(a)
    ensures Quiet(s, Apply(s, a))
  {
    hide PidOk, ParentOk, PcOk, PidsApart, ForksApart, LogOk, SleepOk, HasZombie, HasChild;
  }

  lemma SimpleSleep(s: State, a: Action, i: nat)
    requires Inv(s) && Enabled(s, a) && Simple(a) && i < |s.t| && Quiet(s, Apply(s, a))
    ensures SleepOk(Apply(s, a), i)
  {
    hide PidOk, ParentOk, PidsApart, ForksApart, LogOk, HasZombie, HasChild, PcOk;
    var r := Apply(s, a);
    forall k | 0 <= k < |s.t|
      ensures r.t[k].parent == s.t[k].parent && (r.t[k].state.Zombie? ==> s.t[k].state.Zombie?)
    {
      assert QuietAt(s, r, k);
    }
    NoNewZombie(s, r, i);
    InvParts(s, i);
  }

  // ---- fork

  predicate InFork(a: Action) {
    a.ForkBegin? || a.ForkFail? || a.ForkParent? || a.ForkEnd?
  }

  /** The slot a fork step works on. */
  function ForkSlot(s: State, a: Action): (i: nat)
    requires Enabled(s, a) && InFork(a)
    ensures i < |s.t|
  {
    if a.ForkBegin? then a.child else s.pcs[a.p].child
  }

  /** Before the step the slot is unused or the forker's embryo; only it and the
      forker's place change. */
  lemma ForkFrame(s: State, a: Action)
    requires Inv(s) && Enabled(s, a) && InFork(a)
    ensures var r, i := Apply(s, a), ForkSlot(s, a);
            && |r.t| == |s.t| && |r.pcs| == |s.pcs| && r.init == s.init && r.reaped == s.reaped && i != a.p && i != s.init
            && (s.t[i].state == Unused || s.t[i].state == Embryo) && Alive(s.t[a.p])
            && r.t == s.t[i := r.t[i]] && r.pcs == s.pcs[a.p := r.pcs[a.p]]
            && (r.pcs[a.p] == User || (r.pcs[a.p] == Parented(i) && s.t[i].state == Embryo) || r.pcs[a.p] == Forking(i))
            && (s.t[i].state == Embryo ==> ChildOf(s.pcs[a.p], i)) && (s.t[i].state == Unused ==> s.pcs[a.p] == User)
            && (s.t[i].state == Embryo ==> r.t[i].pid == s.t[i].pid && r.nextpid == s.nextpid)
  {
    hide SleepOk, LogOk, PidsApart, ForksApart, ParentOk, PidOk;
    InvParts(s, a.p);
    InvParts(s, s.init);
  }

  lemma ForkInv(s: State, a: Action)
    requires Inv(s) && Enabled(s, a) && InFork(a)
    ensures Inv(Apply(s, a))
  {
    hide SleepOk, LogOk, PidsApart, ForksApart, ParentOk, PidOk, PcOk, ChildOf, Apply;
    var r := Apply(s, a);
    ForkFrame(s, a);
    forall k | 0 <= k < |r.t|
      ensures PidOk(r, k) && ParentOk(r, k) && PcOk(r, k) && SleepOk(r, k)
    {
      ForkPid(s, a, k);
      ForkParentOk(s, a, k);
      ForkPc(s, a, k);
      ForkSleep(s, a, k);
    }
    forall k, j | 0 <= k < |r.t| && 0 <= j < |r.t|
      ensures PidsApart(r, k, j)
    {
      ForkPidsApart(s, a, k, j);
    }
    forall p, q, i | 0 <= p < |r.t| && 0 <= q < |r.t| && 0 <= i < |r.t|
      ensures ForksApart(r, p, q, i)
    {
      ForkForksApart(s, a, p, q, i);
    }
    ForkLog(s, a);
    ForkShape(s, a);
  }

  lemma ForkShape(s: State, a: Action)
    requires Inv(s) && Enabled(s, a) && InFork(a)
    ensures Shape(Apply(s, a))
  {
    hide SleepOk, LogOk, PidsApart, ForksApart, ParentOk, PidOk;
    ForkFrame(s, a);
  }

  lemma ForkLog(s: State, a: Action)
    requires Inv(s) && Enabled(s, a) && InFork(a)
    ensures LogOk(Apply(s, a))
  {
    hide SleepOk, PidsApart, ForksApart, ParentOk;
    InvParts(s, ForkSlot(s, a));
    InvParts(s, a.p);
  }

  lemma ForkPid(s: State, a: Action, k: nat)
    requires Inv(s) && Enabled(s, a) && InFork(a) && k < |s.t|
    ensures k < |Apply(s, a).t| && PidOk(Apply(s, a), k)
  {
    hide SleepOk, ForksApart, ParentOk;
    var i := ForkSlot(s, a);
    InvParts(s, k);
    InvParts(s, i);
    InvParts(s, a.p);
    assert PidsApart(s, i, k);
  }

  lemma ForkPidsApart(s: State, a: Action, k: nat, j: nat)
    requires Inv(s) && Enabled(s, a) && InFork(a) && k < |s.t| && j < |s.t|
    ensures |Apply(s, a).t| == |s.t| && PidsApart(Apply(s, a), k, j)
  {
    hide SleepOk, ForksApart, ParentOk, LogOk;
    assert PidsApart(s, k, j);
    InvParts(s, k);
    InvParts(s, j);
    InvParts(s, a.p);
  }

  lemma ForkParentOk(s: State, a: Action, k: nat)
    requires Inv(s) && Enabled(s, a) && InFork(a) && k < |s.t|
    ensures |Apply(s, a).t| == |s.t| == |Apply(s, a).pcs| && ParentOk(Apply(s, a), k)
  {
    hide SleepOk, ForksApart, LogOk, PidsApart, PidOk;
    InvParts(s, k);
    InvParts(s, a.p);
    InvParts(s, s.init);
    ForkFrame(s, a);
  }

  lemma ForkPc(s: State, a: Action, k: nat)
    requires Inv(s) && Enabled(s, a) && InFork(a) && k < |s.t|
    ensures |Apply(s, a).t| == |s.t| == |Apply(s, a).pcs| && PcOk(Apply(s, a), k)
  {
    hide SleepOk, LogOk, PidsApart;
    var i := ForkSlot(s, a);
    InvParts(s, k);
    InvParts(s, a.p);
    InvParts(s, i);
    ForkFrame(s, a);
    assert ForksApart(s, k, a.p, i);
  }

  lemma ForkSleep(s: State, a: Action, k: nat)
    requires Inv(s) && Enabled(s, a) && InFork(a) && k < |s.t|
    ensures |Apply(s, a).t| == |s.t| == |Apply(s, a).pcs| && SleepOk(Apply(s, a), k)
  {
    hide LogOk, PidsApart, ForksApart, ParentOk, PidOk, HasZombie;
    var r := Apply(s, a);
    InvParts(s, k);
    InvParts(s, a.p);
    ForkFrame(s, a);
    NoNewZombie(s, r, k);
  }

  lemma ForkForksApart(s: State, a: Action, p: nat, q: nat, i: nat)
    requires Inv(s) && Enabled(s, a) && InFork(a) && p < |s.t| && q < |s.t| && i < |s.t|
    ensures |Apply(s, a).t| == |s.t| == |Apply(s, a).pcs| && ForksApart(Apply(s, a), p, q, i)
  {
    hide SleepOk, LogOk, PidsApart, ParentOk, PidOk;
    InvParts(s, p);
    InvParts(s, q);
    InvParts(s, a.p);
    ForkFrame(s, a);
    assert ForksApart(s, p, q, i);
  }

  // ---- wait reaps

  lemma ReapInv(s: State, p: nat, k: nat)
    requires Inv(s) && Enabled(s, DoWait(p, Reap(k)))
    ensures Inv(Apply(s, DoWait(p, Reap(k))))
  {
    hide SleepOk, LogOk, PidsApart, ForksApart, ParentOk, PidOk, PcOk, ChildOf, HasZombie;
    var r := Apply(s, DoWait(p, Reap(k)));
    forall i | 0 <= i < |r.t|
      ensures PidOk(r, i) && ParentOk(r, i) && PcOk(r, i) && SleepOk(r, i)
    {
      ReapSlot(s, p, k, i);
      ReapParent(s, p, k, i);
    }
    forall i, j | 0 <= i < |r.t| && 0 <= j < |r.t|
      ensures PidsApart(r, i, j)
    {
      assert PidsApart(s, i, j);
      assert PidsApart(r, i, j) by { ReapApart(s, p, k, i, j); }
    }
    forall q, o, i | 0 <= q < |r.t| && 0 <= o < |r.t| && 0 <= i < |r.t|
      ensures ForksApart(r, q, o, i)
    {
      ReapForks(s, p, k, q, o, i);
    }
    ReapLog(s, p, k);
  }

  lemma ReapSlot(s: State, p: nat, k: nat, i: nat)
    requires Inv(s) && Enabled(s, DoWait(p, Reap(k))) && i < |s.t|
    ensures var r := Apply(s, DoWait(p, Reap(k))); PidOk(r, i) && PcOk(r, i) && SleepOk(r, i)
  {
    hide LogOk, ForksApart, ParentOk, HasZombie;
    var r := Apply(s, DoWait(p, Reap(k)));
    InvParts(s, i);
    InvParts(s, k);
    assert PidsApart(s, i, k);
    NoNewZombie(s, r, i);
  }

  lemma ReapParent(s: State, p: nat, k: nat, i: nat)
    requires Inv(s) && Enabled(s, DoWait(p, Reap(k))) && i < |s.t|
    ensures ParentOk(Apply(s, DoWait(p, Reap(k))), i)
  {
    hide LogOk, ForksApart, HasZombie, PidsApart, PidOk, SleepOk;
    InvParts(s, i);
  }

  lemma ReapApart(s: State, p: nat, k: nat, i: nat, j: nat)
    requires Inv(s) && Enabled(s, DoWait(p, Reap(k))) && i < |s.t| && j < |s.t|
    ensures PidsApart(Apply(s, DoWait(p, Reap(k))), i, j)
  {
    hide LogOk, ForksApart, HasZombie, PidOk, SleepOk, ParentOk, PcOk;
    assert PidsApart(s, i, j);
  }

  lemma ReapForks(s: State, p: nat, k: nat, q: nat, o: nat, i: nat)
    requires Inv(s) && Enabled(s, DoWait(p, Reap(k))) && q < |s.t| && o < |s.t| && i < |s.t|
    ensures ForksApart(Apply(s, DoWait(p, Reap(k))), q, o, i)
  {
    hide LogOk, HasZombie, PidOk, SleepOk, ParentOk, PcOk, PidsApart;
    assert ForksApart(s, q, o, i);
  }

  lemma ReapLog(s: State, p: nat, k: nat)
    requires Inv(s) && Enabled(s, DoWait(p, Reap(k)))
    ensures LogOk(Apply(s, DoWait(p, Reap(k))))
  {
    hide ForksApart, HasZombie, SleepOk, ParentOk, PcOk, PidsApart;
    InvParts(s, k);
  }

  // ---- exit

  /** What exit does to one slot. */
  lemma ExitedAt(t: Table, p: nat, init: nat, i: nat)
    requires p < |t| && i < |t|
    ensures var q := Exited(t, p, init)[i];
            && q.pid == t[i].pid && q.chan == t[i].chan
            && q.parent == (if t[i].parent == p then init else t[i].parent)
            && (i == p ==> q.state == Zombie)
            && (i != p ==> q.state == t[i].state || (t[i].state == Sleeping && q.state == Runnable))
            && (i != p && t[i].state == Sleeping && t[p].parent >= 0 && t[i].chan == OnProc(t[p].parent) ==> q.state == Runnable)
            && (i != p && t[i].state == Sleeping && t[i].chan == OnProc(init) && HasZombie(t, p, |t|) ==> q.state == Runnable)
  {
    var w := if t[p].parent >= 0 then Woken(t, OnProc(t[p].parent)) else t;
    if HasZombie(t, p, |t|) {
      var z :| 0 <= z < |t| && IsChild(t, p, z) && t[z].state == Zombie;
      assert IsChild(w, p, z) && w[z].state == Zombie;
    }
  }

  lemma ExitInv(s: State, p: nat)
    requires Inv(s) && Enabled(s, DoExit(p))
    ensures Inv(Apply(s, DoExit(p)))
  {
    hide SleepOk, LogOk, PidsApart, ForksApart, ParentOk, PidOk, PcOk, ChildOf, Exited;
    var r := Apply(s, DoExit(p));
    forall i | 0 <= i < |r.t|
      ensures PidOk(r, i) && ParentOk(r, i) && PcOk(r, i) && SleepOk(r, i)
    {
      ExitPidPc(s, p, i);
      ExitParent(s, p, i);
      ExitSleep(s, p, i);
    }
    forall i, j | 0 <= i < |r.t| && 0 <= j < |r.t|
      ensures PidsApart(r, i, j)
    {
      ExitApart(s, p, i, j);
    }
    forall q, o, i | 0 <= q < |r.t| && 0 <= o < |r.t| && 0 <= i < |r.t|
      ensures ForksApart(r, q, o, i)
    {
      assert ForksApart(s, q, o, i);
      assert ForksApart(r, q, o, i) by { SameForks(s, r, q, o, i); }
    }
    assert LogOk(r) by { LogSame(s, r); }
    ExitedAt(s.t, p, s.init, s.init);
  }

  lemma SameForks(s: State, r: State, q: nat, o: nat, i: nat)
    requires r.pcs == s.pcs && q < |s.pcs| && o < |s.pcs| && ForksApart(s, q, o, i)
    ensures ForksApart(r, q, o, i)
  {
  }

  lemma ExitPidPc(s: State, p: nat, i: nat)
    requires Inv(s) && Enabled(s, DoExit(p)) && i < |s.t|
    ensures var r := Apply(s, DoExit(p)); PidOk(r, i) && PcOk(r, i)
  {
    hide SleepOk, LogOk, PidsApart, ForksApart, Exited;
    InvParts(s, i);
    ExitedAt(s.t, p, s.init, i);
    if s.pcs[i].Forking? || s.pcs[i].Parented? {
      ExitedAt(s.t, p, s.init, s.pcs[i].child);
    }
  }

  lemma ExitApart(s: State, p: nat, i: nat, j: nat)
    requires Inv(s) && Enabled(s, DoExit(p)) && i < |s.t| && j < |s.t|
    ensures PidsApart(Apply(s, DoExit(p)), i, j)
  {
    hide SleepOk, LogOk, ForksApart, Exited, ParentOk, PcOk, PidOk;
    assert PidsApart(s, i, j);
    ExitedAt(s.t, p, s.init, i);
    ExitedAt(s.t, p, s.init, j);
  }

  lemma ExitParent(s: State, p: nat, i: nat)
    requires Inv(s) && Enabled(s, DoExit(p)) && i < |s.t|
    ensures ParentOk(Apply(s, DoExit(p)), i)
  {
    hide SleepOk, LogOk, ForksApart, Exited;
    InvParts(s, i);
    InvParts(s, s.init);
    assert PidsApart(s, i, s.init);
    ExitedAt(s.t, p, s.init, i);
    ExitedAt(s.t, p, s.init, s.init);
    if 0 <= s.t[i].parent < |s.t| {
      ExitedAt(s.t, p, s.init, s.t[i].parent);
    }
  }

  /** Nobody is left asleep in wait with a new zombie child: exit wakes the
      parent, and init when it inherits a zombie. */
  lemma ExitSleep(s: State, p: nat, i: nat)
    requires Inv(s) && Enabled(s, DoExit(p)) && i < |s.t|
    ensures SleepOk(Apply(s, DoExit(p)), i)
  {
    hide LogOk, ForksApart, Exited, PidOk, PidsApart;
    var r := Apply(s, DoExit(p));
    InvParts(s, i);
    InvParts(s, p);
    ExitedAt(s.t, p, s.init, i);
    if r.t[i].state == Sleeping && r.t[i].chan.OnProc? && HasZombie(r.t, i, |r.t|) {
      var z :| 0 <= z < |r.t| && IsChild(r.t, i, z) && r.t[z].state == Zombie;
      ExitedAt(s.t, p, s.init, z);
    }
  }

  // ---- all runs

  lemma StepInv(s: State, a: Action)
    requires Inv(s) && Enabled(s, a)
    ensures Inv(Apply(s, a))
  {
    hide Inv, Apply, Enabled;
    if Simple(a) {
      SimpleInv(s, a);
    } else if InFork(a) {
      ForkInv(s, a);
    } else if a.DoExit? {
      ExitInv(s, a.p);
    } else {
      ReapInv(s, a.p, a.r.slot);
    }
  }

  lemma InitInv(s: State)
    requires Init(s)
    ensures Inv(s)
  {
    assert forall i :: 0 <= i < |s.t| ==> PidOk(s, i) && ParentOk(s, i) && PcOk(s, i) && SleepOk(s, i);
  }

  predicate Trace(ss: seq<State>, acts: seq<Action>) {
    && |ss| == |acts| + 1 && Init(ss[0])
    && forall i :: 0 <= i < |acts| ==> Enabled(ss[i], acts[i]) && ss[i + 1] == Apply(ss[i], acts[i])
  }

  lemma {:induction false} TraceInv(ss: seq<State>, acts: seq<Action>, k: nat)
    requires Trace(ss, acts) && k < |ss|
    ensures Inv(ss[k])
  {
    hide Inv, Apply, Enabled;
    if k == 0 {
      InitInv(ss[0]);
    } else {
      TraceInv(ss, acts, k - 1);
      StepInv(ss[k - 1], acts[k - 1]);
    }
  }

  // ---- what the invariant gives

  predicate Started(q: Proc) {
    q.state != Unused && q.state != Embryo
  }

  /** Each process is followed by its parent. */
  ghost predicate Lineage(t: Table, path: seq<nat>) {
    && |path| >= 1 && (forall j :: 0 <= j < |path| ==> path[j] < |t|)
    && forall j :: 0 <= j < |path| - 1 ==> t[path[j]].parent == path[j + 1] && t[path[j + 1]].pid < t[path[j]].pid
  }

  /** The parent links of all started processes form a tree with init at its
      root; every ancestor is alive and older. */
  lemma {:induction false} RootedAtInit(s: State, i: nat) returns (path: seq<nat>)
    requires Inv(s) && i < |s.t| && Started(s.t[i])
    ensures Lineage(s.t, path) && path[0] == i && path[|path| - 1] == s.init
    ensures forall j :: 1 <= j < |path| ==> Alive(s.t[path[j]])
    decreases s.t[i].pid
  {
    if i == s.init {
      path := [i];
    } else {
      InvParts(s, i);
      var rest := RootedAtInit(s, s.t[i].parent);
      path := [i] + rest;
      assert forall j :: 1 <= j < |path| ==> path[j] == rest[j - 1];
    }
  }

  /** In every run: pids of different live slots differ, the started processes
      form a tree under init without dead parents, and nobody sleeps in wait with
      a zombie child. */
  lemma ProcessTree(ss: seq<State>, acts: seq<Action>, k: nat, i: nat, j: nat)
    requires Trace(ss, acts) && k < |ss| && i < |ss[k].t| && j < |ss[k].t| && i != j
    ensures Live(ss[k].t[i]) && Live(ss[k].t[j]) ==> ss[k].t[i].pid != ss[k].t[j].pid
    ensures Started(ss[k].t[i]) ==> exists path :: Lineage(ss[k].t, path) && path[0] == i && path[|path| - 1] == ss[k].init
    ensures ss[k].t[i].parent == j && Started(ss[k].t[i]) && i != ss[k].init ==> Alive(ss[k].t[j])
    ensures ss[k].t[i].state == Sleeping && ss[k].t[i].chan == OnProc(i) && ss[k].t[j].state == Zombie ==> ss[k].t[j].parent != i
  {
    var s := ss[k];
    TraceInv(ss, acts, k);
    InvParts(s, i);
    InvParts(s, j);
    assert PidsApart(s, i, j);
    if Started(s.t[i]) {
      var path := RootedAtInit(s, i);
    }
    if s.t[j].parent == i && s.t[j].state == Zombie {
      assert IsChild(s.t, i, j);
    }
  }

  /** A pid that was given out belongs to a live process, or its fork failed, or
      wait has returned it. */
  ghost predicate Accounted(s: State) {
    forall n :: 0 < n < s.nextpid ==> n in s.reaped || n in s.failed || Holder(s, n)
  }

  ghost predicate Holder(s: State, n: nat) {
    exists i :: 0 <= i < |s.t| && Live(s.t[i]) && s.t[i].pid == n
  }

  lemma StepAccounted(s: State, a: Action)
    requires Inv(s) && Accounted(s) && Enabled(s, a)
    ensures Accounted(Apply(s, a))
  {
    hide SleepOk, LogOk, PidsApart, ForksApart, ParentOk, PidOk;
    var r := Apply(s, a);
    forall n | 0 < n < r.nextpid
      ensures n in r.reaped || n in r.failed || Holder(r, n)
    {
      if n == s.nextpid {
        assert Live(r.t[a.child]) && r.t[a.child].pid == n;
      } else if n !in s.reaped && n !in s.failed {
        var i :| 0 <= i < |s.t| && Live(s.t[i]) && s.t[i].pid == n;
        HolderKept(s, a, i);
      }
    }
  }

  lemma HolderKept(s: State, a: Action, i: nat)
    requires Inv(s) && Enabled(s, a) && i < |s.t| && Live(s.t[i])
    ensures var r := Apply(s, a); s.t[i].pid in r.reaped || s.t[i].pid in r.failed || (i < |r.t| && Live(r.t[i]) && r.t[i].pid == s.t[i].pid)
  {
    hide SleepOk, LogOk, PidsApart, ForksApart, ParentOk, PidOk, Exited, HasZombie, HasChild;
    if a.DoExit? {
      ExitedAt(s.t, a.p, s.init, i);
    }
  }

  /** Conservation of pids over every run: each one given out is accounted for
      exactly once, so each exited process is reaped at most once. */
  lemma {:induction false} PidsConserved(ss: seq<State>, acts: seq<Action>, k: nat)
    requires Trace(ss, acts) && k < |ss|
    ensures Accounted(ss[k])
    ensures forall a, b :: 0 <= a < b < |ss[k].reaped| ==> ss[k].reaped[a] != ss[k].reaped[b]
    ensures forall n :: n in ss[k].reaped ==> n !in ss[k].failed && !Holder(ss[k], n)
    ensures forall n :: n in ss[k].failed ==> !Holder(ss[k], n)
  {
    hide Apply, Enabled;
    if k == 0 {
      assert Live(ss[0].t[ss[0].init]) && Holder(ss[0], 1);
    } else {
      PidsConserved(ss, acts, k - 1);
      TraceInv(ss, acts, k - 1);
      StepAccounted(ss[k - 1], acts[k - 1]);
    }
    TraceInv(ss, acts, k);
    forall n | Holder(ss[k], n)
      ensures n !in ss[k].reaped && n !in ss[k].failed
    {
      var i :| 0 <= i < |ss[k].t| && Live(ss[k].t[i]) && ss[k].t[i].pid == n;
      InvParts(ss[k], i);
    }
  }

  // ---- kill on slots that hold no process

  /** kill finds a slot without a process exactly when asked for pid 0 or for the
      pid of a fork that failed. */
  lemma KillTargetExact(s: State, p: nat, pid: nat, i: nat)
    requires Inv(s) && Enabled(s, DoKill(p, pid, i))
    ensures !Live(s.t[i]) <==> pid == 0 || pid in s.failed
  {
    InvParts(s, i);
  }

  /** fork as a whole, with anything of others in between: the new process has the
      next pid and p for its parent, and can run. */
  lemma ForkMakes(s: State, p: nat, i: nat, u: State, v: State)
    requires Enabled(s, ForkBegin(p, i))
    requires Enabled(u, ForkParent(p)) && u.pcs[p] == Apply(s, ForkBegin(p, i)).pcs[p] && u.t[i].pid == Apply(s, ForkBegin(p, i)).t[i].pid
    requires Enabled(v, ForkEnd(p)) && v.pcs[p] == Apply(u, ForkParent(p)).pcs[p] && |v.t| == |u.t|
    requires v.t[i].parent == Apply(u, ForkParent(p)).t[i].parent && v.t[i].pid == Apply(u, ForkParent(p)).t[i].pid
    ensures Apply(s, ForkBegin(p, i)).nextpid == s.nextpid + 1 && Apply(s, ForkBegin(p, i)).t[i].state == Embryo
    ensures var w := Apply(v, ForkEnd(p));
            w.t[i].state == Runnable && w.t[i].pid == s.nextpid && w.t[i].parent == p && w.pcs[p] == User && w.t[i].killed == v.t[i].killed
  {
  }

  /** A process that sleeps on a channel is woken by exactly that channel. */
  lemma SleepThenWake(s: State, p: nat, id: nat, q: nat, other: nat)
    requires Enabled(s, SleepOn(p, id)) && q < |s.t|
    ensures var t := Apply(s, SleepOn(p, id));
            && Enabled(t, WakeOther(q, other)) && t.t[p].state == Sleeping
            && Apply(t, WakeOther(q, other)).t[p].state == if other == id then Runnable else Sleeping
  {
  }

  /** kill marks the process and wakes it, and touches no other. */
  lemma KillWakes(s: State, p: nat, pid: nat, i: nat)
    requires Enabled(s, DoKill(p, pid, i))
    ensures var t := Apply(s, DoKill(p, pid, i)).t;
            && |t| == |s.t| && Marked(s.t[i], t[i]) && t[i].state != Sleeping
            && forall k :: 0 <= k < |t| && k != i ==> t[k] == s.t[k]
  {
    KilledIsMarked(s.t[i]);
  }

  /** Nobody sleeps in wait with a kill mark. */
  ghost predicate WaitHeeds(s: State) {
    forall i :: 0 <= i < |s.t| && s.t[i].state == Sleeping && s.t[i].chan == OnProc(i) ==> !s.t[i].killed
  }

  lemma StepHeeds(s: State, a: Action)
    requires WaitHeeds(s) && Enabled(s, a)
    ensures WaitHeeds(Apply(s, a))
  {
    hide HasZombie, HasChild, Exited;
    if a.DoExit? {
      ExitHands(s.t, a.p, s.init);
    } else if a.DoKill? {
      KillWakes(s, a.p, a.pid, a.victim);
    }
  }

  /** In every run a process that is killed in wait, or before it, does not sleep
      there: wait's test and its sleep are one section under ptable.lock. */
  lemma KilledLeavesWait(ss: seq<State>, acts: seq<Action>, k: nat, i: nat)
    requires Trace(ss, acts) && k < |ss| && i < |ss[k].t| && ss[k].t[i].killed
    ensures !(ss[k].t[i].state == Sleeping && ss[k].t[i].chan == OnProc(i))
  {
    TraceHeeds(ss, acts, k);
  }

  lemma {:induction false} TraceHeeds(ss: seq<State>, acts: seq<Action>, k: nat)
    requires Trace(ss, acts) && k < |ss|
    ensures WaitHeeds(ss[k])
  {
    hide Apply, Enabled;
    if k > 0 {
      TraceHeeds(ss, acts, k - 1);
      StepHeeds(ss[k - 1], acts[k - 1]);
    }
  }

  /** Free slots carry no kill mark, so that new processes start unmarked. */
  ghost predicate Clean(s: State) {
    forall i :: 0 <= i < |s.t| && !Live(s.t[i]) ==> !s.t[i].killed
  }

  /** A step keeps free slots unmarked, except exactly a kill that finds one and
      the failure of a fork whose embryo was killed. */
  lemma CleanExact(s: State, a: Action)
    requires Inv(s) && Clean(s) && Enabled(s, a)
    ensures Clean(Apply(s, a)) <==>
              !((a.DoKill? && (a.pid == 0 || a.pid in s.failed)) || (a.ForkFail? && s.t[s.pcs[a.p].child].killed))
  {
    hide SleepOk, LogOk, PidsApart, ForksApart, ParentOk, PidOk, Exited, HasZombie, HasChild;
    var r := Apply(s, a);
    InvParts(s, a.p);
    if a.DoKill? {
      KillTargetExact(s, a.p, a.pid, a.victim);
      assert r.t[a.victim].killed;
    } else if a.DoExit? {
      forall i | 0 <= i < |r.t| && !Live(r.t[i])
        ensures !r.t[i].killed
      {
        ExitedAt(s.t, a.p, s.init, i);
        ExitKilled(s.t, a.p, s.init, i);
      }
    } else if a.ForkFail? {
      assert r.t[s.pcs[a.p].child].killed == s.t[s.pcs[a.p].child].killed;
    }
  }

  lemma ExitKilled(t: Table, p: nat, init: nat, i: nat)
    requires p < |t| && i < |t|
    ensures Exited(t, p, init)[i].killed == t[i].killed
  {
  }

  /** A run in which init's first child is born with the kill mark: kill(0) marks
      the slot that fork then takes. */
  lemma BornKilled(s0: State) returns (ss: seq<State>, acts: seq<Action>)
    requires Init(s0) && |s0.t| >= 2 && s0.init == 0
    ensures Trace(ss, acts)
    ensures var s := ss[|acts|]; |s.t| >= 2 && s.t[1].state == Runnable && s.t[1].parent == 0 && s.t[1].killed
  {
    acts := [Schedule(0), DoKill(0, 0, 1), ForkBegin(0, 1), ForkParent(0), ForkEnd(0)];
    var s1 := Apply(s0, acts[0]);
    var s2 := Apply(s1, acts[1]);
    var s3 := Apply(s2, acts[2]);
    var s4 := Apply(s3, acts[3]);
    ss := [s0, s1, s2, s3, s4, Apply(s4, acts[4])];
  }
}
