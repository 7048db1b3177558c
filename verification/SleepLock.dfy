/** Sleeping locks over sleep and wakeup, one machine step per lock operation or
    shared-memory update. A process in acquiresleep tests `locked` under the
    inner spinlock; if it must wait, sleep takes ptable.lock first and only then
    drops the inner lock. The scheduler and the two spinlocks are part of the
    machine: sched gives ptable.lock up, and a process that is chosen again
    returns from sched holding it. */
module SleepLock {

  datatype Holder = Free | By(p: nat)

  datatype Pc =
    | Idle          // outside the lock's code, not a holder
    | Enter         // acquiresleep: wants the inner spinlock
    | Test          // inner lock held, at the while test
    | SleepTake     // sleep: inner lock held, wants ptable.lock
    | SleepDrop     // both held, about to release the inner lock
    | SleepMark     // ptable.lock held, about to set chan and SLEEPING
    | Switch        // SLEEPING set, ptable.lock still held
    | Off           // off the processor; SLEEPING or, once woken, RUNNABLE
    | Resume        // chosen by the scheduler: back in sleep with ptable.lock
    | Took          // locked and pid set, inner lock still held
    | Critical      // acquiresleep has returned
    | Exit          // releasesleep: wants the inner spinlock
    | Clear         // inner lock held, about to clear locked and pid
    | Wake          // cleared, wakeup wants ptable.lock
    | Scan          // wakeup1's scan, both locks held
    | Scanned       // about to release the inner lock

  datatype Thread = Thread(pc: Pc, sleeping: bool)

  datatype State = State(inner: Holder, ptable: Holder, locked: bool, pid: Holder, threads: seq<Thread>)

  predicate Init(s: State) {
    && s.inner == Free && s.ptable == Free && !s.locked && s.pid == Free
    && forall p :: 0 <= p < |s.threads| ==> s.threads[p] == Thread(Idle, false)
  }

  predicate HoldsInner(pc: Pc) {
    pc.Test? || pc.SleepTake? || pc.SleepDrop? || pc.Took? || pc.Clear? || pc.Wake? || pc.Scan? || pc.Scanned?
  }

  predicate HoldsTable(pc: Pc) {
    pc.SleepDrop? || pc.SleepMark? || pc.Switch? || pc.Resume? || pc.Scan?
  }

  /** acquiresleep has set locked for this process and releasesleep has not
      cleared it yet. */
  predicate Owner(pc: Pc) {
    pc.Took? || pc.Critical? || pc.Exit? || pc.Clear?
  }

  function At(s: State, p: nat, pc: Pc): (t: State)
    requires p < |s.threads|
  {
    s.(threads := s.threads[p := s.threads[p].(pc := pc)])
  }

  function Marked(s: State, p: nat, sleeping: bool): (t: State)
    requires p < |s.threads|
  {
    s.(threads := s.threads[p := s.threads[p].(sleeping := sleeping)])
  }

  /** wakeup1: every process SLEEPING on the lock becomes RUNNABLE. */
  function AllWoken(ts: seq<Thread>): (r: seq<Thread>)
    ensures |r| == |ts| && forall p :: 0 <= p < |ts| ==> r[p] == Thread(ts[p].pc, false)
  {
    seq(|ts|, i requires 0 <= i < |ts| => Thread(ts[i].pc, false))
  }

  /** One step of process p. */
  predicate Step(s: State, p: nat, t: State)
    requires p < |s.threads|
  {
    match s.threads[p].pc
    case Idle => t == At(s, p, Enter)
    case Enter => s.inner == Free && t == At(s, p, Test).(inner := By(p))
    case Test =>
      if s.locked then t == At(s, p, SleepTake)
      else t == At(s, p, Took).(locked := true, pid := By(p))
    case SleepTake => s.ptable == Free && t == At(s, p, SleepDrop).(ptable := By(p))
    case SleepDrop => t == At(s, p, SleepMark).(inner := Free)
    case SleepMark => t == Marked(At(s, p, Switch), p, true)
    case Switch => t == At(s, p, Off).(ptable := Free)
    case Off => !s.threads[p].sleeping && s.ptable == Free && t == At(s, p, Resume).(ptable := By(p))
    case Resume => t == At(s, p, Enter).(ptable := Free)
    case Took => t == At(s, p, Critical).(inner := Free)
    case Critical => t == At(s, p, Exit)
    case Exit => s.inner == Free && t == At(s, p, Clear).(inner := By(p))
    case Clear => t == At(s, p, Wake).(locked := false, pid := Free)
    case Wake => s.ptable == Free && t == At(s, p, Scan).(ptable := By(p))
    case Scan => t == At(s, p, Scanned).(threads := AllWoken(s.threads)[p := Thread(Scanned, false)], ptable := Free)
    case Scanned => t == At(s, p, Idle).(inner := Free)
  }

  /** kill, or a wakeup on a channel that happens to coincide: p becomes RUNNABLE
      although the lock was not released. */
  predicate Rouse(s: State, p: nat, t: State)
    requires p < |s.threads|
  {
    s.ptable == Free && t == Marked(s, p, false)
  }

  predicate Next(s: State, t: State) {
    exists p :: 0 <= p < |s.threads| && (Step(s, p, t) || Rouse(s, p, t))
  }

  predicate Run(ss: seq<State>) {
    |ss| >= 1 && Init(ss[0]) && forall i :: 0 < i < |ss| ==> Next(ss[i - 1], ss[i])
  }

  // ---- the invariant

  /** The locks agree with where process p is. */
  ghost predicate ThreadOk(s: State, p: nat)
    requires p < |s.threads|
  {
    && (HoldsInner(s.threads[p].pc) <==> s.inner == By(p))
    && (HoldsTable(s.threads[p].pc) <==> s.ptable == By(p))
    && (Owner(s.threads[p].pc) <==> s.pid == By(p))
    && (s.threads[p].sleeping ==> (s.threads[p].pc.Switch? || s.threads[p].pc.Off?))
  }

  ghost predicate LocksOk(s: State) {
    forall p :: 0 <= p < |s.threads| ==> ThreadOk(s, p)
  }

  /** p has decided to wait and nobody has woken it. */
  predicate Waiting(t: Thread) {
    t.pc.SleepTake? || t.pc.SleepDrop? || t.pc.SleepMark? || t.sleeping
  }

  predicate Due(t: Thread) {
    t.pc.Wake? || t.pc.Scan?
  }

  /** The lock is free and its last holder has not scanned for sleepers yet. */
  ghost predicate WakeupDue(s: State) {
    exists q :: 0 <= q < |s.threads| && Due(s.threads[q])
  }

  ghost predicate Inv(s: State) {
    && LocksOk(s)
    && (s.locked <==> s.pid != Free)
    && (s.inner == Free || s.inner.p < |s.threads|) && (s.ptable == Free || s.ptable.p < |s.threads|)
    && (s.pid == Free || s.pid.p < |s.threads|)
    && forall p :: 0 <= p < |s.threads| && Waiting(s.threads[p]) ==> s.locked || WakeupDue(s)
  }

  /** A wakeup is due only while the inner lock is held by the one who owes it. */
  lemma DueHeld(s: State, q: nat)
    requires LocksOk(s) && q < |s.threads| && Due(s.threads[q])
    ensures WakeupDue(s) && s.inner == By(q)
  {
    assert ThreadOk(s, q);
  }

  lemma StepInv(s: State, p: nat, t: State)
    requires Inv(s) && p < |s.threads| && Step(s, p, t)
    ensures Inv(t)
  {
    StepLocks(s, p, t);
    forall r | 0 <= r < |t.threads| && Waiting(t.threads[r])
      ensures t.locked || WakeupDue(t)
    {
      StepWaiter(s, p, t, r);
    }
  }

  lemma StepLocks(s: State, p: nat, t: State)
    requires Inv(s) && p < |s.threads| && Step(s, p, t)
    ensures LocksOk(t) && (t.locked <==> t.pid != Free)
    ensures |t.threads| == |s.threads|
    ensures t.inner == Free || t.inner.p < |t.threads|
    ensures t.ptable == Free || t.ptable.p < |t.threads|
    ensures t.pid == Free || t.pid.p < |t.threads|
  {
    assert ThreadOk(s, p);
    forall q | 0 <= q < |t.threads|
      ensures ThreadOk(t, q)
    {
      StepThread(s, p, t, q);
    }
  }

  lemma StepThread(s: State, p: nat, t: State, q: nat)
    requires p < |s.threads| && Step(s, p, t) && q < |s.threads| && ThreadOk(s, p) && ThreadOk(s, q)
    requires s.locked <==> s.pid != Free
    ensures |t.threads| == |s.threads| && ThreadOk(t, q)
  {
    if p == q {
      StepSelf(s, p, t);
    } else {
      StepOther(s, p, t, q);
    }
  }

  lemma StepSelf(s: State, p: nat, t: State)
    requires p < |s.threads| && Step(s, p, t) && ThreadOk(s, p)
    requires s.locked <==> s.pid != Free
    ensures |t.threads| == |s.threads| && ThreadOk(t, p)
  {
    if InSleep(s.threads[p].pc) {
      SleepSelf(s, p, t);
    } else {
      LockSelf(s, p, t);
    }
  }

  /** Between sleep's test and its return. */
  predicate InSleep(pc: Pc) {
    pc.SleepTake? || pc.SleepDrop? || pc.SleepMark? || pc.Switch? || pc.Off? || pc.Resume?
  }

  lemma SleepSelf(s: State, p: nat, t: State)
    requires p < |s.threads| && InSleep(s.threads[p].pc) && Step(s, p, t) && ThreadOk(s, p)
    ensures |t.threads| == |s.threads| && ThreadOk(t, p)
  {
  }

  lemma LockSelf(s: State, p: nat, t: State)
    requires p < |s.threads| && !InSleep(s.threads[p].pc) && Step(s, p, t) && ThreadOk(s, p)
    requires s.locked <==> s.pid != Free
    ensures |t.threads| == |s.threads| && ThreadOk(t, p)
  {
  }

  /** A step of p moves no other process and changes a lock only between free
      and held by p. */
  lemma StepOther(s: State, p: nat, t: State, q: nat)
    requires p < |s.threads| && Step(s, p, t) && q < |s.threads| && p != q && ThreadOk(s, p) && ThreadOk(s, q)
    requires s.locked <==> s.pid != Free
    ensures |t.threads| == |s.threads| && ThreadOk(t, q) && t.threads[q].pc == s.threads[q].pc
    ensures t.threads[q].sleeping ==> s.threads[q].sleeping
  {
    hide HoldsInner, HoldsTable, Owner, Step;
    StepStays(s, p, t, q);
    StepHolders(s, p, t);
  }

  lemma StepStays(s: State, p: nat, t: State, q: nat)
    requires p < |s.threads| && Step(s, p, t) && q < |s.threads| && p != q
    ensures |t.threads| == |s.threads| && t.threads[q].pc == s.threads[q].pc
    ensures t.threads[q].sleeping ==> s.threads[q].sleeping
  {
  }

  lemma StepHolders(s: State, p: nat, t: State)
    requires p < |s.threads| && Step(s, p, t) && ThreadOk(s, p)
    requires s.locked <==> s.pid != Free
    ensures t.inner == s.inner || (s.inner == Free && t.inner == By(p)) || (s.inner == By(p) && t.inner == Free)
    ensures t.ptable == s.ptable || (s.ptable == Free && t.ptable == By(p)) || (s.ptable == By(p) && t.ptable == Free)
    ensures t.pid == s.pid || (s.pid == Free && t.pid == By(p)) || (s.pid == By(p) && t.pid == Free)
  {
  }

  /** The scan leaves nobody waiting. */
  lemma ScanWakes(s: State, p: nat, t: State, r: nat)
    requires p < |s.threads| && s.threads[p].pc == Scan && Step(s, p, t) && r < |s.threads| && ThreadOk(s, p) && ThreadOk(s, r)
    ensures |t.threads| == |s.threads| && !Waiting(t.threads[r])
  {
  }

  /** Who starts to wait has seen the lock taken, which stays so. */
  lemma StartsWaiting(s: State, p: nat, t: State, r: nat)
    requires p < |s.threads| && r < |s.threads| && Step(s, p, t) && |t.threads| == |s.threads|
    requires !Waiting(s.threads[r]) && Waiting(t.threads[r])
    ensures t.locked
  {
    if r != p {
      StepStays(s, p, t, r);
    }
  }

  /** A wakeup that is due stays due while others move. */
  lemma StaysDue(s: State, p: nat, t: State)
    requires p < |s.threads| && Step(s, p, t) && WakeupDue(s) && !Due(s.threads[p])
    ensures WakeupDue(t)
  {
    hide Step;
    var q :| 0 <= q < |s.threads| && Due(s.threads[q]);
    StepStays(s, p, t, q);
  }

  lemma StaysLocked(s: State, p: nat, t: State)
    requires p < |s.threads| && Step(s, p, t) && s.threads[p].pc != Clear
    ensures s.locked ==> t.locked
  {
  }

  lemma StepWaiter(s: State, p: nat, t: State, r: nat)
    requires Inv(s) && p < |s.threads| && Step(s, p, t) && LocksOk(t)
    requires |t.threads| == |s.threads| && r < |t.threads| && Waiting(t.threads[r])
    ensures t.locked || WakeupDue(t)
  {
    assert ThreadOk(s, p) && ThreadOk(s, r);
    if s.threads[p].pc == Clear || s.threads[p].pc == Wake {
      DueHeld(t, p);
    } else {
      hide Step, LocksOk, Waiting, WakeupDue, ThreadOk;
      StaysLocked(s, p, t);
      if s.threads[p].pc == Scan {
        ScanWakes(s, p, t, r);
      } else if !Waiting(s.threads[r]) {
        StartsWaiting(s, p, t, r);
      } else if !s.locked {
        StaysDue(s, p, t);
      }
    }
  }

  lemma RouseInv(s: State, p: nat, t: State)
    requires Inv(s) && p < |s.threads| && Rouse(s, p, t)
    ensures Inv(t)
  {
    forall q | 0 <= q < |t.threads|
      ensures ThreadOk(t, q)
    {
      assert ThreadOk(s, q);
    }
    forall r | 0 <= r < |t.threads| && Waiting(t.threads[r])
      ensures t.locked || WakeupDue(t)
    {
      assert Waiting(s.threads[r]);
      if !s.locked {
        var q :| 0 <= q < |s.threads| && Due(s.threads[q]);
        assert t.threads[q].pc == s.threads[q].pc;
      }
    }
  }

  lemma {:induction false} RunInv(ss: seq<State>, k: nat)
    requires Run(ss) && k < |ss|
    ensures Inv(ss[k])
  {
    if k > 0 {
      RunInv(ss, k - 1);
      var s, t := ss[k - 1], ss[k];
      var p :| 0 <= p < |s.threads| && (Step(s, p, t) || Rouse(s, p, t));
      if Step(s, p, t) {
        StepInv(s, p, t);
      } else {
        RouseInv(s, p, t);
      }
    }
  }

  // ---- what callers rely on

  predicate Holding(t: Thread) {
    t.pc.Critical? || t.pc.Exit?
  }

  /** In every interleaving at most one process is between the return of
      acquiresleep and its call of releasesleep, and holdingsleep (locked, and
      pid is mine) answers true for that one only. */
  lemma MutualExclusion(ss: seq<State>, k: nat, p: nat, q: nat)
    requires Run(ss) && k < |ss| && p < |ss[k].threads| && q < |ss[k].threads|
    requires ss[k].threads[p].pc == Critical
    ensures ss[k].locked && ss[k].pid == By(p)
    ensures ss[k].threads[q].pc == Critical ==> p == q
  {
    RunInv(ss, k);
    assert ThreadOk(ss[k], p) && ThreadOk(ss[k], q);
  }

  /** With both spinlocks free, a process asleep on the lock means that some
      other process holds it, so a release with its wakeup is still to come. */
  lemma NoLostWakeup(ss: seq<State>, k: nat, p: nat)
    requires Run(ss) && k < |ss| && p < |ss[k].threads|
    requires ss[k].inner == Free && ss[k].ptable == Free && ss[k].threads[p].sleeping
    ensures ss[k].locked && exists q :: 0 <= q < |ss[k].threads| && q != p && Holding(ss[k].threads[q])
  {
    RunInv(ss, k);
    var s := ss[k];
    if WakeupDue(s) {
      var q :| 0 <= q < |s.threads| && Due(s.threads[q]);
      DueHeld(s, q);
    }
    assert ThreadOk(s, s.pid.p) && ThreadOk(s, p);
    assert Holding(s.threads[s.pid.p]);
  }

  /** A releasing process can always finish, and nobody is asleep afterwards. */
  lemma ReleaseWakesAll(s: State, p: nat, t: State)
    requires Inv(s) && p < |s.threads| && s.threads[p].pc == Scan && Step(s, p, t)
    ensures forall q :: 0 <= q < |t.threads| ==> !Waiting(t.threads[q])
  {
    StepLocks(s, p, t);
    forall q | 0 <= q < |t.threads|
      ensures !Waiting(t.threads[q])
    {
      assert ThreadOk(s, p) && ThreadOk(s, q);
    }
  }

  lemma Extend(ss: seq<State>, p: nat, t: State)
    requires Run(ss) && p < |ss[|ss| - 1].threads| && Step(ss[|ss| - 1], p, t)
    ensures Run(ss + [t])
  {
    hide Step, Rouse, Init;
    var us := ss + [t];
    forall i | 0 < i < |us|
      ensures Next(us[i - 1], us[i])
    {
      assert i < |ss| ==> us[i - 1] == ss[i - 1] && us[i] == ss[i];
    }
  }

  /** A run to the situation that NoLostWakeup is about: process 0 holds the lock,
      process 1 sleeps on it, and both spinlocks are free. */
  lemma Contended() returns (ss: seq<State>)
    ensures Run(ss)
    ensures var s := ss[|ss| - 1];
            s.inner == Free && s.ptable == Free && s.threads == [Thread(Critical, false), Thread(Off, true)]
  {
    var s := State(Free, Free, false, Free, [Thread(Idle, false), Thread(Idle, false)]);
    ss := [s];
    ss, s := Went(ss, s, 0, At(s, 0, Enter));
    ss, s := Went(ss, s, 0, At(s, 0, Test).(inner := By(0)));
    ss, s := Went(ss, s, 0, At(s, 0, Took).(locked := true, pid := By(0)));
    ss, s := Went(ss, s, 0, At(s, 0, Critical).(inner := Free));
    ss, s := Went(ss, s, 1, At(s, 1, Enter));
    ss, s := Went(ss, s, 1, At(s, 1, Test).(inner := By(1)));
    ss, s := Went(ss, s, 1, At(s, 1, SleepTake));
    ss, s := Went(ss, s, 1, At(s, 1, SleepDrop).(ptable := By(1)));
    ss, s := Went(ss, s, 1, At(s, 1, SleepMark).(inner := Free));
    ss, s := Went(ss, s, 1, Marked(At(s, 1, Switch), 1, true));
    ss, s := Went(ss, s, 1, At(s, 1, Off).(ptable := Free));
  }

  /** State i of ss comes from a step of p. */
  predicate Moved(ss: seq<State>, i: nat, p: nat)
    requires 0 < i < |ss|
  {
    p < |ss[i - 1].threads| && Step(ss[i - 1], p, ss[i])
  }

  /** A process that has been woken goes back to the lock, and takes it if it is free:
      from every state in which the spinlocks are free, by steps of its own. */
  lemma WokenTakes(s: State, p: nat) returns (ss: seq<State>)
    requires Inv(s) && p < |s.threads| && s.threads[p] == Thread(Off, false) && s.inner == Free && s.ptable == Free && !s.locked
    ensures |ss| > 1 && ss[0] == s && forall i :: 0 < i < |ss| ==> Moved(ss, i, p)
    ensures var t := ss[|ss| - 1]; p < |t.threads| && t.threads[p].pc == Critical && t.locked && t.pid == By(p) && t.inner == Free
  {
    var a := At(s, p, Resume).(ptable := By(p));
    var b := At(a, p, Enter).(ptable := Free);
    var c := At(b, p, Test).(inner := By(p));
    var d := At(c, p, Took).(locked := true, pid := By(p));
    var e := At(d, p, Critical).(inner := Free);
    ss := [s, a, b, c, d, e];
  }

  /** A run in which a lock changes hands by way of sleep and wakeup. */
  lemma Handover() returns (ss: seq<State>)
    ensures Run(ss)
    ensures var s := ss[|ss| - 1];
            s.inner == Free && s.ptable == Free && s.pid == By(1) && s.threads == [Thread(Idle, false), Thread(Critical, false)]
  {
    ss := Released();
    var s := ss[|ss| - 1];
    ss, s := Went(ss, s, 1, At(s, 1, Resume).(ptable := By(1)));
    ss, s := Went(ss, s, 1, At(s, 1, Enter).(ptable := Free));
    ss, s := Went(ss, s, 1, At(s, 1, Test).(inner := By(1)));
    ss, s := Went(ss, s, 1, At(s, 1, Took).(locked := true, pid := By(1)));
    ss, s := Went(ss, s, 1, At(s, 1, Critical).(inner := Free));
  }

  lemma Released() returns (ss: seq<State>)
    ensures Run(ss)
    ensures ss[|ss| - 1] == State(Free, Free, false, Free, [Thread(Idle, false), Thread(Off, false)])
  {
    ss := Contended();
    var s := ss[|ss| - 1];
    ContendedIs(ss);
    hide Run;
    RunSome(ss);
    ss, s := Went(ss, s, 0, At(s, 0, Exit));
    ss, s := Went(ss, s, 0, At(s, 0, Clear).(inner := By(0)));
    ss, s := Went(ss, s, 0, At(s, 0, Wake).(locked := false, pid := Free));
    ss, s := Went(ss, s, 0, At(s, 0, Scan).(ptable := By(0)));
    ss, s := Went(ss, s, 0, s.(threads := [Thread(Scanned, false), Thread(Off, false)], ptable := Free));
    ss, s := Went(ss, s, 0, At(s, 0, Idle).(inner := Free));
  }

  lemma RunSome(ss: seq<State>)
    requires Run(ss)
    ensures |ss| >= 1
  {
  }

  lemma ContendedIs(ss: seq<State>)
    requires Run(ss) && ss[|ss| - 1].threads == [Thread(Critical, false), Thread(Off, true)]
    ensures ss[|ss| - 1].pid == By(0) && ss[|ss| - 1].locked
  {
    var s := ss[|ss| - 1];
    RunInv(ss, |ss| - 1);
    assert ThreadOk(s, 0);
  }

  lemma Went(ss: seq<State>, s: State, p: nat, t: State) returns (us: seq<State>, u: State)
    requires Run(ss) && ss[|ss| - 1] == s && p < |s.threads| && Step(s, p, t)
    ensures u == t && us == ss + [t] && Run(us) && us[|us| - 1] == t && |us| > 1
  {
    us, u := ss + [t], t;
    Extend(ss, p, t);
  }
}
