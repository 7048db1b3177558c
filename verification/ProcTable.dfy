/** The process table: the scans of proc.c that run under ptable.lock, on an
    array of process slots, each proved against a function of the table. */
module ProcTable {

  datatype ProcState = Unused | Embryo | Sleeping | Runnable | Running | Zombie

  /** What a process sleeps on: wait sleeps on the process itself. */
  datatype Chan = NoChan | OnProc(slot: nat) | OnOther(id: nat)

  const NONE := -1

  /** parent is a slot, or NONE. */
  datatype Proc = Proc(state: ProcState, pid: nat, parent: int, chan: Chan, killed: bool)

  type Table = seq<Proc>

  // ---- what the scans compute

  function Wakened(q: Proc, c: Chan): (r: Proc) {
    if q.state == Sleeping && q.chan == c then q.(state := Runnable) else q
  }

  function Woken(t: Table, c: Chan): (r: Table)
    ensures |r| == |t| && forall k :: 0 <= k < |t| ==> r[k] == Wakened(t[k], c)
  {
    seq(|t|, k requires 0 <= k < |t| => Wakened(t[k], c))
  }

  predicate IsChild(t: Table, p: nat, k: nat)
    requires k < |t|
  {
    t[k].parent == p
  }

  predicate HasZombie(t: Table, p: nat, n: nat)
    requires n <= |t|
  {
    exists z :: 0 <= z < n && IsChild(t, p, z) && t[z].state == Zombie
  }

  predicate HasChild(t: Table, p: nat, n: nat)
    requires n <= |t|
  {
    exists z :: 0 <= z < n && IsChild(t, p, z)
  }

  /** Slot k after exit has passed the first n slots in handing p's children to
      init. */
  function Adopted(t: Table, p: nat, init: nat, n: nat, k: nat): (r: Proc)
    requires n <= |t| && k < |t|
  {
    var q := if k < n && IsChild(t, p, k) then t[k].(parent := init) else t[k];
    if HasZombie(t, p, n) then Wakened(q, OnProc(init)) else q
  }

  function AllAdopted(t: Table, p: nat, init: nat): (r: Table)
    ensures |r| == |t| && forall k :: 0 <= k < |t| ==> r[k] == Adopted(t, p, init, |t|, k)
  {
    seq(|t|, k requires 0 <= k < |t| => Adopted(t, p, init, |t|, k))
  }

  /** The table after exit by p. */
  function Exited(t: Table, p: nat, init: nat): (r: Table)
    requires p < |t|
    ensures |r| == |t|
  {
    var w := if t[p].parent >= 0 then Woken(t, OnProc(t[p].parent)) else t;
    var a := AllAdopted(w, p, init);
    a[p := a[p].(state := Zombie)]
  }

  function Reaped(q: Proc): (r: Proc) {
    q.(state := Unused, pid := 0, parent := NONE, killed := false)
  }

  datatype WaitResult = Reap(slot: nat) | NoKids | Sleep

  class Slots {
    const proc: array<Proc>
    const initproc: nat
    var nextpid: nat

    /** A machine with n slots and no process yet. */
    constructor (n: nat)
      ensures proc.Length == n && fresh(proc) && nextpid == 1 && initproc == 0
      ensures forall k :: 0 <= k < n ==> proc[k] == Proc(Unused, 0, NONE, NoChan, false)
    {
      proc := new Proc[n](_ => Proc(Unused, 0, NONE, NoChan, false));
      nextpid, initproc := 1, 0;
    }

    /** allocproc's locked part: the first UNUSED slot. */
    method Allocproc() returns (i: nat)
      modifies proc, this`nextpid
      ensures i <= proc.Length && (forall k :: 0 <= k < i ==> old(proc[k]).state != Unused)
      ensures i == proc.Length ==> proc[..] == old(proc[..]) && nextpid == old(nextpid)
      ensures i < proc.Length ==>
                && old(proc[i]).state == Unused && nextpid == old(nextpid) + 1
                && proc[..] == old(proc[..])[i := old(proc[i]).(state := Embryo, pid := old(nextpid))]
    {
      i := 0;
      while i < proc.Length && proc[i].state != Unused
        invariant i <= proc.Length && forall k :: 0 <= k < i ==> proc[k].state != Unused
      {
        i := i + 1;
      }
      if i < proc.Length {
        proc[i] := proc[i].(state := Embryo, pid := nextpid);
        nextpid := nextpid + 1;
      }
    }

    method Wakeup1(c: Chan)
      modifies proc
      ensures proc[..] == Woken(old(proc[..]), c)
      ensures forall j :: 0 <= j < proc.Length ==>
                && proc[j] == old(proc[j]).(state := proc[j].state)
                && proc[j].state == if old(proc[j]).state == Sleeping && old(proc[j]).chan == c then Runnable else old(proc[j]).state
    {
      var k := 0;
      while k < proc.Length
        invariant k <= proc.Length
        invariant forall j :: 0 <= j < k ==> proc[j] == Wakened(old(proc[j]), c)
        invariant forall j :: k <= j < proc.Length ==> proc[j] == old(proc[j])
      {
        if proc[k].state == Sleeping && proc[k].chan == c {
          proc[k] := proc[k].(state := Runnable);
        }
        k := k + 1;
      }
    }

    /** exit's loop over the table. */
    method Reparent(p: nat)
      requires p < proc.Length
      modifies proc
      ensures forall k :: 0 <= k < proc.Length ==> proc[k] == Adopted(old(proc[..]), p, initproc, proc.Length, k)
    {
      ghost var t := proc[..];
      var i := 0;
      while i < proc.Length
        invariant i <= proc.Length
        invariant forall k :: 0 <= k < proc.Length ==> proc[k] == Adopted(t, p, initproc, i, k)
      {
        assert proc[i] == Adopted(t, p, initproc, i, i);
        if proc[i].parent == p {
          proc[i] := proc[i].(parent := initproc);
          if proc[i].state == Zombie {
            assert IsChild(t, p, i);
            Wakeup1(OnProc(initproc));
          }
        }
        AdoptNext(t, p, initproc, i);
        i := i + 1;
      }
    }

    /** exit, from the point where it takes ptable.lock. */
    method Exit(p: nat)
      requires p < proc.Length
      modifies proc
      ensures proc[..] == Exited(old(proc[..]), p, initproc)
      ensures Handed(old(proc[..]), proc[..], p, initproc)
    {
      ExitHands(proc[..], p, initproc);
      if proc[p].parent >= 0 {
        Wakeup1(OnProc(proc[p].parent));
      }
      Reparent(p);
      proc[p] := proc[p].(state := Zombie);
    }

    /** One scan of wait: a zombie child to reap, or nothing to wait for, or the
        process goes to sleep. The first zombie child in slot order is taken. */
    method WaitScan(p: nat) returns (r: WaitResult, pid: int)
      requires p < proc.Length
      modifies proc
      ensures r.Reap? <==> HasZombie(old(proc[..]), p, proc.Length)
      ensures r.Reap? ==>
                && r.slot < proc.Length && IsChild(old(proc[..]), p, r.slot) && old(proc[r.slot]).state == Zombie
                && !HasZombie(old(proc[..]), p, r.slot) && pid == old(proc[r.slot]).pid
                && proc[..] == old(proc[..])[r.slot := Reaped(old(proc[r.slot]))]
                && proc[r.slot] == Proc(Unused, 0, NONE, old(proc[r.slot]).chan, false)
      ensures r.NoKids? ==> proc[..] == old(proc[..]) && pid == -1
      ensures !r.Reap? ==> (r.NoKids? <==> !HasChild(old(proc[..]), p, proc.Length) || old(proc[p]).killed)
      ensures r.Sleep? ==> proc[..] == old(proc[..])[p := old(proc[p]).(state := Sleeping, chan := OnProc(p))]
    {
      var havekids := false;
      var k := 0;
      while k < proc.Length
        invariant k <= proc.Length && proc[..] == old(proc[..])
        invariant havekids == HasChild(proc[..], p, k) && !HasZombie(proc[..], p, k)
      {
        if proc[k].parent == p {
          assert IsChild(proc[..], p, k);
          havekids := true;
          if proc[k].state == Zombie {
            pid := proc[k].pid;
            proc[k] := proc[k].(state := Unused, pid := 0, parent := NONE, killed := false);
            return Reap(k), pid;
          }
        }
        k := k + 1;
      }
      if !havekids || proc[p].killed {
        return NoKids, -1;
      }
      proc[p] := proc[p].(state := Sleeping, chan := OnProc(p));
      return Sleep, -1;
    }

    /** kill: the first slot with that pid, whatever its state. */
    method Kill(pid: nat) returns (ok: bool, i: nat)
      modifies proc
      ensures i <= proc.Length && ok == (i < proc.Length) && forall k :: 0 <= k < i ==> old(proc[k]).pid != pid
      ensures !ok ==> proc[..] == old(proc[..])
      ensures ok ==> old(proc[i]).pid == pid && proc[..] == old(proc[..])[i := Killed(old(proc[i]))]
      ensures ok ==> Marked(old(proc[i]), proc[i])
    {
      i := 0;
      while i < proc.Length
        invariant i <= proc.Length && proc[..] == old(proc[..]) && forall k :: 0 <= k < i ==> proc[k].pid != pid
      {
        if proc[i].pid == pid {
          KilledIsMarked(proc[i]);
          proc[i] := proc[i].(killed := true);
          if proc[i].state == Sleeping {
            proc[i] := proc[i].(state := Runnable);
          }
          return true, i;
        }
        i := i + 1;
      }
      ok := false;
    }
  }

  function Killed(q: Proc): (r: Proc) {
    q.(killed := true, state := if q.state == Sleeping then Runnable else q.state)
  }

  /** q has become r: marked, no longer asleep, and otherwise as it was. */
  predicate Marked(q: Proc, r: Proc) {
    && r.killed && r.state != Sleeping && (q.state == Sleeping ==> r.state == Runnable) && (q.state != Sleeping ==> r.state == q.state)
    && r.pid == q.pid && r.parent == q.parent && r.chan == q.chan
  }

  lemma KilledIsMarked(q: Proc)
    ensures Marked(q, Killed(q))
  {
  }

  /** What becomes of the other slots, and of p, in exit: the children of p are now
      init's; of the sleepers exactly p's parent in wait, and init in wait if it gets
      a zombie, wake up; nothing else changes. */
  predicate Handed(t: Table, r: Table, p: nat, init: nat)
    requires p < |t|
  {
    && |r| == |t| && r[p].state == Zombie
    && forall k :: 0 <= k < |t| ==>
         && r[k].pid == t[k].pid && r[k].chan == t[k].chan && r[k].killed == t[k].killed
         && r[k].parent == (if t[k].parent == p then init else t[k].parent)
         && (k != p ==>
               r[k].state == if t[k].state == Sleeping && t[k].chan.OnProc? && RousedBy(t, p, init, t[k].chan.slot) then Runnable else t[k].state)
  }

  /** exit by p wakes who waits as process w. */
  predicate RousedBy(t: Table, p: nat, init: nat, w: nat)
    requires p < |t|
  {
    t[p].parent == w || (w == init && exists z :: 0 <= z < |t| && t[z].parent == p && t[z].state == Zombie)
  }

  lemma ExitHands(t: Table, p: nat, init: nat)
    requires p < |t|
    ensures Handed(t, Exited(t, p, init), p, init)
  {
    var w := if t[p].parent >= 0 then Woken(t, OnProc(t[p].parent)) else t;
    assert forall k :: 0 <= k < |t| ==> w[k] == t[k].(state := w[k].state) && (w[k].state == Zombie <==> t[k].state == Zombie);
    SameZombies(t, w, p);
    hide HasZombie;
  }

  lemma SameZombies(t: Table, w: Table, p: nat)
    requires |w| == |t|
    requires forall k :: 0 <= k < |t| ==> w[k].parent == t[k].parent && (w[k].state == Zombie <==> t[k].state == Zombie)
    ensures HasZombie(w, p, |w|) <==> exists z :: 0 <= z < |t| && t[z].parent == p && t[z].state == Zombie
  {
    if HasZombie(w, p, |w|) {
      var z :| 0 <= z < |w| && IsChild(w, p, z) && w[z].state == Zombie;
      assert t[z].parent == p && t[z].state == Zombie;
    }
    if z :| 0 <= z < |t| && t[z].parent == p && t[z].state == Zombie {
      assert IsChild(w, p, z) && w[z].state == Zombie;
    }
  }

  lemma AdoptNext(t: Table, p: nat, init: nat, i: nat)
    requires i < |t|
    ensures HasZombie(t, p, i + 1) <==> HasZombie(t, p, i) || (IsChild(t, p, i) && t[i].state == Zombie)
    ensures forall k :: 0 <= k < |t| && k != i && (HasZombie(t, p, i + 1) <==> HasZombie(t, p, i)) ==>
              Adopted(t, p, init, i + 1, k) == Adopted(t, p, init, i, k)
  {
  }
}
